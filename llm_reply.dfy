/** The text handling around the vision-LLM PAN reader: choosing how a
    document is encoded from its file name, splitting the upload data URL,
    and parsing the model's "name, father's name, PAN, date of birth"
    reply. The LLM itself is an input: its reply text, or None when the
    call fails. */
module LlmReply {

  import opened Wrappers
  import opened PyText

  /** The dictionary with the keys "Name", "Father's Name", "PAN NO", "DOB". */
  datatype PanDetails = PanDetails(name: string, fathersName: string, panNo: string, dob: string)

  /** `response_text.strip().split(',')`. */
  function ReplyParts(reply: string): (parts: seq<string>)
    ensures |parts| == CountChar(Strip(reply), ',') + 1
    ensures forall i :: 0 <= i < |parts| ==> ',' !in parts[i]
    ensures Join(parts, ',') == Strip(reply)
  {
    Split(Strip(reply), ',')
  }

  /** The four fixed keys from the first four parts, each stripped. */
  function DetailsOf(parts: seq<string>): (d: PanDetails)
    requires |parts| >= 4
    ensures Trimmed(d.name) && Trimmed(d.fathersName) && Trimmed(d.panNo) && Trimmed(d.dob)
  {
    PanDetails(Strip(parts[0]), Strip(parts[1]), Strip(parts[2]), Strip(parts[3]))
  }

  /** `extract_pan_details` of pan_app.py after the model call: None when
      the call or the reply lookup raised (`reply == None`) or when the
      reply does not have exactly four comma-separated parts. */
  function ExtractPanDetailsGuarded(reply: Option<string>): (r: Option<PanDetails>)
    ensures r.Some? <==> reply.Some? && CountChar(Strip(reply.value), ',') == 3
    ensures r.Some? ==> r.value == DetailsOf(ReplyParts(reply.value))
  {
    match reply
    case None => None
    case Some(text) =>
      var parts := ReplyParts(text);
      if |parts| != 4 then None else Some(DetailsOf(parts))
  }

  const IndexErrorMessage := "list index out of range"

  /** `extract_pan_details` of LLM_based.py and LLM_v2.py: the same parse
      with no guard, so a reply with fewer than four parts raises
      IndexError, and parts after the fourth are ignored. */
  function ExtractPanDetails(reply: string): (r: Result<PanDetails, string>)
    ensures r.Ok? <==> CountChar(Strip(reply), ',') >= 3
    ensures r.Err? ==> r.error == IndexErrorMessage
    ensures r.Ok? ==> r.value == DetailsOf(ReplyParts(reply))
  {
    var parts := ReplyParts(reply);
    if |parts| < 4 then Err(IndexErrorMessage) else Ok(DetailsOf(parts))
  }

  /** Where the guarded parse succeeds, the unguarded one gives the same
      details; it also succeeds on replies with more than four parts. */
  lemma GuardedAgreesWithUnguarded(reply: string)
    ensures ExtractPanDetailsGuarded(Some(reply)).Some? ==>
      ExtractPanDetails(reply) == Ok(ExtractPanDetailsGuarded(Some(reply)).value)
    ensures CountChar(Strip(reply), ',') > 3 ==>
      ExtractPanDetailsGuarded(Some(reply)).None? && ExtractPanDetails(reply).Ok?
  {
  }

  /** The reply in the format the prompt asks for. */
  function FormatReply(d: PanDetails): string
  {
    d.name + ", " + d.fathersName + ", " + d.panNo + ", " + d.dob
  }

  /** A field the format can carry: non-empty, no comma, no surrounding
      whitespace. */
  predicate FieldOk(f: string)
  {
    f != [] && ',' !in f && Trimmed(f)
  }

  /** Parsing a reply in the requested format gives the details back. */
  lemma ParseFormattedReply(d: PanDetails)
    requires FieldOk(d.name) && FieldOk(d.fathersName) && FieldOk(d.panNo) && FieldOk(d.dob)
    ensures ExtractPanDetailsGuarded(Some(FormatReply(d))) == Some(d)
    ensures ExtractPanDetails(FormatReply(d)) == Ok(d)
  {
    var s := FormatReply(d);
    var parts := [d.name, [' '] + d.fathersName, [' '] + d.panNo, [' '] + d.dob];
    assert Join(parts[3..], ',') == parts[3];
    assert Join(parts[2..], ',') == parts[2] + [','] + parts[3];
    assert parts[2..][1..] == parts[3..];
    assert parts[1..][1..] == parts[2..];
    assert parts[1..] == [parts[1]] + parts[2..];
    assert Join(parts[1..], ',') == parts[1] + [','] + Join(parts[2..], ',');
    assert Join(parts, ',') == s;
    forall i | 0 <= i < |parts| ensures ',' !in parts[i] {
    }
    SplitJoin(parts, ',');
    assert s[0] == d.name[0] && s[|s| - 1] == d.dob[|d.dob| - 1];
    StripTrimmed(s);
    StripTrimmed(d.name);
    StripLeadingSpace(d.fathersName);
    StripLeadingSpace(d.panNo);
    StripLeadingSpace(d.dob);
  }

  /** How a document is sent to the model: its pages rendered as JPEGs, or
      the single image file as it is. */
  datatype Route = PdfPages | SingleImage

  /** `document_path.lower().endswith('.pdf')`. */
  predicate IsPdfName(path: string)
  {
    EndsWith(Lower(path), ".pdf")
  }

  /** `document_to_base64` of pan_app.py and LLM_based.py. */
  function DocumentRoute(path: string): (r: Route)
    ensures r == PdfPages <==> IsPdfName(path)
  {
    if IsPdfName(path) then PdfPages else SingleImage
  }

  /** The extension test ignores case. */
  lemma DocumentRouteIgnoresCase(path: string)
    ensures DocumentRoute(Lower(path)) == DocumentRoute(path)
  {
    LowerIdempotent(path);
  }

  /** `supported_formats` of LLM_v2.py. */
  const SupportedFormats: seq<string> := [".pdf", ".jpeg", ".jpg", ".png", ".tiff", ".tif"]

  predicate IsSupportedName(path: string)
  {
    exists k :: 0 <= k < |SupportedFormats| && EndsWith(Lower(path), SupportedFormats[k])
  }

  const UnsupportedFormatMessage := "Unsupported file format. Supported formats are: PDF, JPEG, JPG, PNG, TIFF."

  /** `document_to_base64` of LLM_v2.py: PDF first, then the whitelist,
      else ValueError. */
  function DocumentRouteChecked(path: string): (r: Result<Route, string>)
    ensures r.Err? <==> !IsSupportedName(path)
    ensures r.Err? ==> r.error == UnsupportedFormatMessage
    ensures r == Ok(PdfPages) <==> IsPdfName(path)
  {
    if IsPdfName(path) then
      assert EndsWith(Lower(path), SupportedFormats[0]);
      Ok(PdfPages)
    else if IsSupportedName(path) then Ok(SingleImage)
    else Err(UnsupportedFormatMessage)
  }

  /** The whitelist only rejects: whatever it accepts goes the way the
      unchecked dispatch sends it, so a ".pdf" name never takes the image
      path although ".pdf" is listed. */
  lemma CheckedRouteRefinesRoute(path: string)
    ensures DocumentRouteChecked(path).Ok? ==> DocumentRouteChecked(path).value == DocumentRoute(path)
    ensures IsPdfName(path) ==> DocumentRouteChecked(path) != Ok(SingleImage)
  {
  }

  /** `content_type, content_string = contents.split(',')`: exactly one comma,
      or the unpacking raises ValueError. */
  function SplitDataUrl(contents: string): (r: Option<(string, string)>)
    ensures r.Some? <==> CountChar(contents, ',') == 1
    ensures r.Some? ==> r.value.0 + [','] + r.value.1 == contents && ',' !in r.value.0
  {
    var parts := Split(contents, ',');
    if |parts| != 2 then None
    else
      assert parts[1..] == [parts[1]];
      assert Join(parts, ',') == parts[0] + [','] + parts[1];
      Some((parts[0], parts[1]))
  }

  /** What the upload callback shows: nothing before an upload, or lines of text. */
  datatype Display = NoContent | Paragraphs(lines: seq<string>)

  const CouldNotExtractMessage := "Could not extract PAN details. Please ensure the image is clear and try again."
  const ProcessingErrorMessage := "There was an error processing the file."

  /** `display_pan_details`. `imageReadable` says whether decoding the
      payload and opening it as an image succeeded; `reply` is the model's
      reply, None when the call failed. */
  function DisplayPanDetails(contents: Option<string>, imageReadable: bool, reply: Option<string>): (r: Display)
    ensures r == NoContent <==> contents.None?
    ensures r == Paragraphs([ProcessingErrorMessage]) <==>
      contents.Some? && (SplitDataUrl(contents.value).None? || !imageReadable)
    ensures r == Paragraphs([CouldNotExtractMessage]) <==>
      contents.Some? && SplitDataUrl(contents.value).Some? && imageReadable
      && ExtractPanDetailsGuarded(reply).None?
    ensures (contents.Some? && SplitDataUrl(contents.value).Some? && imageReadable
             && ExtractPanDetailsGuarded(reply).Some?) ==>
      var d := ExtractPanDetailsGuarded(reply).value;
      r == Paragraphs(["Name: " + d.name, "Father's Name: " + d.fathersName,
                       "PAN NO: " + d.panNo, "DOB: " + d.dob])
  {
    match contents
    case None => NoContent
    case Some(c) =>
      if SplitDataUrl(c).None? || !imageReadable then Paragraphs([ProcessingErrorMessage])
      else match ExtractPanDetailsGuarded(reply)
        case None => Paragraphs([CouldNotExtractMessage])
        case Some(d) => Paragraphs(["Name: " + d.name, "Father's Name: " + d.fathersName,
                                    "PAN NO: " + d.panNo, "DOB: " + d.dob])
  }
}
