/** Detection, validation and masking of an Aadhaar number on OCR output
    (class `AadharMask`): the number pattern, the per-page decision, the
    painting of word boxes into the page image, and the document roll-up of
    comments and validity. */
module Masking {

  import opened Wrappers
  import opened PyText
  import Verhoeff

  /** An axis-aligned word box as the OCR reply gives it. */
  datatype BBox = BBox(xMin: int, yMin: int, xMax: int, yMax: int)

  datatype Word = Word(content: string, bbox: BBox)

  /** One page of the OCR reply: its line texts and its word entries. */
  datatype OcrPage = OcrPage(lines: seq<string>, words: seq<Word>)

  datatype Rgb = Rgb(r: int, g: int, b: int)

  /** The fill colour "orange". */
  const Orange := Rgb(255, 165, 0)

  const NoAadhaarComment := "No Aadhaar number detected"
  const ChecksumFailedComment := "Checksum failed, invalid Aadhaar detected"
  const MaskedComment := "Aadhaar masked successfully"
  const CompletedSummary := "Aadhaar masking completed"
  const InvalidSummary := "Invalid or no Aadhaar detected"

  /** `AADHAAR_PATTERN` matches at `p`: four digits, a space, four digits, a
      space, four digits, with no digit just before or just after. */
  predicate AadhaarAt(text: string, p: int)
  {
    0 <= p && p + 14 <= |text|
    && AllDigits(text[p..p + 4]) && text[p + 4] == ' '
    && AllDigits(text[p + 5..p + 9]) && text[p + 9] == ' '
    && AllDigits(text[p + 10..p + 14])
    && (p == 0 || !IsDigit(text[p - 1]))
    && (p + 14 == |text| || !IsDigit(text[p + 14]))
  }

  /** The leftmost match at or after `start`. */
  function SearchFrom(text: string, start: nat): (r: Option<nat>)
    requires start <= |text|
    ensures r.Some? ==> start <= r.value && AadhaarAt(text, r.value)
    ensures r.Some? ==> forall q :: start <= q < r.value ==> !AadhaarAt(text, q)
    ensures r.None? ==> forall q :: start <= q ==> !AadhaarAt(text, q)
    decreases |text| - start
  {
    if start + 14 > |text| then None
    else if AadhaarAt(text, start) then Some(start)
    else SearchFrom(text, start + 1)
  }

  /** `AADHAAR_PATTERN.search(text)`: the least position holding a match. */
  function Search(text: string): (r: Option<nat>)
    ensures r.Some? ==> AadhaarAt(text, r.value) && forall q :: 0 <= q < r.value ==> !AadhaarAt(text, q)
    ensures r.None? ==> forall q :: !AadhaarAt(text, q)
  {
    SearchFrom(text, 0)
  }

  /** The three groups of a match, and what stripping, splitting and
      removing whitespace make of the matched text. */
  lemma MatchShape(text: string, p: nat)
    requires AadhaarAt(text, p)
    ensures var g := text[p..p + 14];
      && Strip(g) == g
      && SplitWs(g) == [text[p..p + 4], text[p + 5..p + 9], text[p + 10..p + 14]]
      && RemoveSpaces(g) == text[p..p + 4] + text[p + 5..p + 9] + text[p + 10..p + 14]
      && AllDigits(RemoveSpaces(g))
  {
    var g1, g2, g3 := text[p..p + 4], text[p + 5..p + 9], text[p + 10..p + 14];
    assert text[p..p + 14] == g1 + [' '] + g2 + [' '] + g3;
    DigitsNoSpace(g1);
    DigitsNoSpace(g2);
    DigitsNoSpace(g3);
    StripTrimmed(text[p..p + 14]);
    assert SplitWs(text[p..p + 14]) == [g1, g2, g3] by {
      assert text[p..p + 14] == g1 + ([' '] + g2 + ([' '] + g3));
      SplitWsThree(g1, g2, g3);
    }
    RemoveSpacesThree(g1, g2, g3);
  }

  /** `re.sub(r"\s", "", match.group())`: the twelve digits of a match. */
  function MatchedNumber(text: string, p: nat): (r: string)
    requires AadhaarAt(text, p)
    ensures r == text[p..p + 4] + text[p + 5..p + 9] + text[p + 10..p + 14]
    ensures AllDigits(r)
  {
    MatchShape(text, p);
    RemoveSpaces(text[p..p + 14])
  }

  /** `match.group().strip().split()[:2]`: the first two groups of a match. */
  function MaskedGroups(text: string, p: nat): (r: seq<string>)
    requires AadhaarAt(text, p)
    ensures r == [text[p..p + 4], text[p + 5..p + 9]]
  {
    MatchShape(text, p);
    var parts := SplitWs(Strip(text[p..p + 14]));
    assert |parts| == 3;
    parts[..2]
  }

  /** What `mask_aadhar_img` decides for one page text. */
  datatype PageOutcome = NoMatch | ChecksumFailed | Passed(maskedWords: seq<string>)

  /** The decision of `mask_aadhar_img`: no match; a match whose 12 digits
      fail the checksum; or a match that passes, whose first two groups
      (and never the third) are the words to mask. */
  function Decide(text: string): (o: PageOutcome)
    ensures o.NoMatch? <==> Search(text).None?
    ensures Search(text).Some? ==>
      var p := Search(text).value;
      var digits := text[p..p + 4] + text[p + 5..p + 9] + text[p + 10..p + 14];
      && AllDigits(digits)
      && (o.Passed? <==> Verhoeff.Accepted(digits))
      && (o.Passed? ==> o.maskedWords == [text[p..p + 4], text[p + 5..p + 9]])
  {
    match Search(text)
    case None => NoMatch
    case Some(p) =>
      if Verhoeff.Checksum(MatchedNumber(text, p)) == 0 then Passed(MaskedGroups(text, p))
      else ChecksumFailed
  }

  /** The comment and the `invalid_aadhar` flag reported for an outcome. */
  function Report(o: PageOutcome): (r: (string, int))
    ensures r.1 == 0 <==> o.Passed?
    ensures r.1 == 1 <==> !o.Passed?
    ensures o.NoMatch? ==> r.0 == NoAadhaarComment
    ensures o.ChecksumFailed? ==> r.0 == ChecksumFailedComment
    ensures o.Passed? ==> r.0 == MaskedComment
  {
    match o
    case NoMatch => (NoAadhaarComment, 1)
    case ChecksumFailed => (ChecksumFailedComment, 1)
    case Passed(_) => (MaskedComment, 0)
  }

  /** The three comments are distinct, so the outcome can be read back from
      the comment. */
  lemma ReportDistinguishesOutcomes(o1: PageOutcome, o2: PageOutcome)
    requires Report(o1).0 == Report(o2).0
    ensures o1.NoMatch? == o2.NoMatch? && o1.ChecksumFailed? == o2.ChecksumFailed? && o1.Passed? == o2.Passed?
  {
    assert NoAadhaarComment[0] != ChecksumFailedComment[0];
    assert NoAadhaarComment[0] != MaskedComment[0];
    assert ChecksumFailedComment[0] != MaskedComment[0];
  }

  /** Text of a page as `mask_aadhar_img` builds it (lines joined by "\n"). */
  function ImageText(page: OcrPage): string
  {
    Join(page.lines, '\n')
  }

  /** Text of a page as the PDF branch builds it (lines joined by " "). */
  function PdfText(page: OcrPage): string
  {
    Join(page.lines, ' ')
  }

  predicate InBox(b: BBox, x: int, y: int)
  {
    b.xMin <= x <= b.xMax && b.yMin <= y <= b.yMax
  }

  /** A word the masking loop paints: it holds a digit (the filter on the
      word list) and its trimmed content is one of the masked words. */
  predicate IsTarget(w: Word, masked: seq<string>)
  {
    HasDigit(w.content) && Strip(w.content) in masked
  }

  /** Pixel (x, y) lies in the box of some target among `words`. */
  predicate PaintedBy(words: seq<Word>, masked: seq<string>, x: int, y: int)
    decreases |words|
  {
    words != []
    && (PaintedBy(words[..|words| - 1], masked, x, y)
        || (IsTarget(words[|words| - 1], masked) && InBox(words[|words| - 1].bbox, x, y)))
  }

  predicate TargetAt(words: seq<Word>, masked: seq<string>, x: int, y: int, k: int)
    requires 0 <= k < |words|
  {
    IsTarget(words[k], masked) && InBox(words[k].bbox, x, y)
  }

  lemma {:induction false} PaintedByHasTarget(words: seq<Word>, masked: seq<string>, x: int, y: int)
    requires PaintedBy(words, masked, x, y)
    ensures exists k :: 0 <= k < |words| && TargetAt(words, masked, x, y, k)
    decreases |words|
  {
    var n := |words| - 1;
    if PaintedBy(words[..n], masked, x, y) {
      PaintedByHasTarget(words[..n], masked, x, y);
      var k :| 0 <= k < n && TargetAt(words[..n], masked, x, y, k);
      assert words[..n][k] == words[k];
      assert TargetAt(words, masked, x, y, k);
    } else {
      assert TargetAt(words, masked, x, y, n);
    }
  }

  lemma {:induction false} TargetPaints(words: seq<Word>, masked: seq<string>, x: int, y: int, k: int)
    requires 0 <= k < |words| && TargetAt(words, masked, x, y, k)
    ensures PaintedBy(words, masked, x, y)
    decreases |words|
  {
    var n := |words| - 1;
    if k < n {
      assert words[..n][k] == words[k];
      TargetPaints(words[..n], masked, x, y, k);
    }
  }

  /** The painting loop covers exactly the boxes of the target words. */
  lemma PaintedByIff(words: seq<Word>, masked: seq<string>, x: int, y: int)
    ensures PaintedBy(words, masked, x, y)
        <==> exists k :: 0 <= k < |words| && TargetAt(words, masked, x, y, k)
  {
    if PaintedBy(words, masked, x, y) {
      PaintedByHasTarget(words, masked, x, y);
    }
    if exists k :: 0 <= k < |words| && TargetAt(words, masked, x, y, k) {
      var k :| 0 <= k < |words| && TargetAt(words, masked, x, y, k);
      TargetPaints(words, masked, x, y, k);
    }
  }

  /** The pixels `mask_aadhar_img` paints for a page: only when the number
      passed the checksum, and only inside the box of a target word. */
  predicate Painted(o: PageOutcome, words: seq<Word>, x: int, y: int)
  {
    o.Passed? && PaintedBy(words, o.maskedWords, x, y)
  }

  /** Pixels are painted only inside the box of a word whose trimmed content
      is one of the two masked groups, and only when the checksum passed. */
  lemma PaintedOnlyInTargetBoxes(text: string, words: seq<Word>, x: int, y: int)
    requires Painted(Decide(text), words, x, y)
    ensures Search(text).Some?
    ensures var p := Search(text).value;
      && Verhoeff.Accepted(MatchedNumber(text, p))
      && exists k :: 0 <= k < |words| && HasDigit(words[k].content) && InBox(words[k].bbox, x, y)
           && (Strip(words[k].content) == text[p..p + 4] || Strip(words[k].content) == text[p + 5..p + 9])
  {
    var o := Decide(text);
    PaintedByIff(words, o.maskedWords, x, y);
    var k :| 0 <= k < |words| && TargetAt(words, o.maskedWords, x, y, k);
  }

  /** A word reading as the third group is a target only when that group
      repeats one of the first two. */
  lemma ThirdGroupNotMasked(text: string, w: Word)
    requires Search(text).Some? && Decide(text).Passed?
    requires Strip(w.content) == text[Search(text).value + 10..Search(text).value + 14]
    requires IsTarget(w, Decide(text).maskedWords)
    ensures var p := Search(text).value;
      text[p + 10..p + 14] == text[p..p + 4] || text[p + 10..p + 14] == text[p + 5..p + 9]
  {
  }

  /** `[w for w in words if any(c.isdigit() for c in w["content"])]`. */
  function DigitWords(words: seq<Word>): (r: seq<Word>)
    ensures forall i :: 0 <= i < |r| ==> HasDigit(r[i].content)
    decreases |words|
  {
    if words == [] then []
    else
      var last := words[|words| - 1];
      DigitWords(words[..|words| - 1]) + (if HasDigit(last.content) then [last] else [])
  }

  lemma {:induction false} DigitWordsPaint(words: seq<Word>, masked: seq<string>, x: int, y: int)
    ensures PaintedBy(DigitWords(words), masked, x, y) == PaintedBy(words, masked, x, y)
    decreases |words|
  {
    if words != [] {
      var n := |words| - 1;
      var last := words[n];
      DigitWordsPaint(words[..n], masked, x, y);
      if HasDigit(last.content) {
        var d := DigitWords(words);
        assert d[..|d| - 1] == DigitWords(words[..n]);
        assert d[|d| - 1] == last;
      } else {
        assert DigitWords(words) == DigitWords(words[..n]);
        assert !IsTarget(last, masked);
      }
    }
  }

  /** Paints the inclusive rectangle `box`, clipped to the image, with `fill`
      (`ImageDraw.rectangle`). */
  method PaintRectangle(img: array2<Rgb>, box: BBox, fill: Rgb)
    modifies img
    ensures forall y, x :: 0 <= y < img.Length0 && 0 <= x < img.Length1 ==>
      img[y, x] == (if InBox(box, x, y) then fill else old(img[y, x]))
  {
    var y := if box.yMin < 0 then 0 else box.yMin;
    while y <= box.yMax && y < img.Length0
      invariant 0 <= y
      invariant forall r, c :: 0 <= r < img.Length0 && 0 <= c < img.Length1 ==>
        img[r, c] == (if InBox(box, c, r) && r < y then fill else old(img[r, c]))
    {
      var x := if box.xMin < 0 then 0 else box.xMin;
      while x <= box.xMax && x < img.Length1
        invariant 0 <= x
        invariant forall r, c :: 0 <= r < img.Length0 && 0 <= c < img.Length1 ==>
          img[r, c] == (if InBox(box, c, r) && (r < y || (r == y && c < x)) then fill else old(img[r, c]))
      {
        img[y, x] := fill;
        x := x + 1;
      }
      y := y + 1;
    }
  }

  /** The word loop of `mask_aadhar_img`: the box of every word whose
      trimmed content is a masked group is painted orange. */
  method PaintTargets(img: array2<Rgb>, words: seq<Word>, masked: seq<string>)
    requires forall i :: 0 <= i < |words| ==> HasDigit(words[i].content)
    modifies img
    ensures forall y, x :: 0 <= y < img.Length0 && 0 <= x < img.Length1 ==>
      img[y, x] == (if PaintedBy(words, masked, x, y) then Orange else old(img[y, x]))
  {
    var i := 0;
    while i < |words|
      invariant 0 <= i <= |words|
      invariant forall y, x :: 0 <= y < img.Length0 && 0 <= x < img.Length1 ==>
        img[y, x] == (if PaintedBy(words[..i], masked, x, y) then Orange else old(img[y, x]))
    {
      assert words[..i + 1][..i] == words[..i];
      if Strip(words[i].content) in masked {
        PaintRectangle(img, words[i].bbox, Orange);
      }
      i := i + 1;
    }
    assert words[..|words|] == words;
  }

  /** `mask_aadhar_img`. `attrWords` is what `getattr(page, "words", [])`
      yields; for the dictionary pages the OCR step produces that is always
      the empty list. The comment depends only on the decision, never on
      whether any word was painted. */
  method MaskAadhaarImg(img: array2<Rgb>, page: OcrPage, attrWords: seq<Word>)
      returns (comment: string, invalid: int)
    modifies img
    ensures (comment, invalid) == Report(Decide(ImageText(page)))
    ensures forall y, x :: 0 <= y < img.Length0 && 0 <= x < img.Length1 ==>
      img[y, x] == (if Painted(Decide(ImageText(page)), attrWords, x, y) then Orange else old(img[y, x]))
  {
    var words := DigitWords(attrWords);
    var text := ImageText(page);
    var found := Search(text);
    comment := NoAadhaarComment;
    invalid := 1;
    if found.Some? {
      var p := found.value;
      var checksum := Verhoeff.ComputeChecksum(MatchedNumber(text, p));
      if checksum == 0 {
        var masked := MaskedGroups(text, p);
        assert Decide(text) == Passed(masked);
        PaintTargets(img, words, masked);
        forall y, x | 0 <= y < img.Length0 && 0 <= x < img.Length1
          ensures PaintedBy(words, masked, x, y) == PaintedBy(attrWords, masked, x, y)
        {
          DigitWordsPaint(attrWords, masked, x, y);
        }
        comment := MaskedComment;
        invalid := 0;
      } else {
        comment := ChecksumFailedComment;
      }
    }
  }

  /** `input_path.lower().endswith(".pdf")`. */
  predicate IsPdfPath(path: string)
  {
    EndsWith(Lower(path), ".pdf")
  }

  /** The dictionary `mask_aadhar_final` returns, without `base64_output`. */
  datatype MaskReport = MaskReport(valid: bool, comments: seq<string>, summary: string)

  const IndexErrorMessage := "list index out of range"

  /** `final_comment`: the summary that goes with the validity flag. */
  function Summary(valid: bool): (s: string)
    ensures valid ==> s == CompletedSummary
    ensures !valid ==> s == InvalidSummary
  {
    if valid then CompletedSummary else InvalidSummary
  }

  /** How many pages of a PDF have no match in their " "-joined text. */
  function Unmatched(pages: seq<OcrPage>): (n: nat)
    ensures n <= |pages|
    ensures n == |UnmatchedPages(pages)|
    decreases |pages|
  {
    if pages == [] then 0
    else
      UnmatchedPagesSnoc(pages);
      Unmatched(pages[..|pages| - 1]) + (if Search(PdfText(pages[|pages| - 1])).None? then 1 else 0)
  }

  /** The indices of the pages whose " "-joined text has no match. */
  ghost function UnmatchedPages(pages: seq<OcrPage>): set<int>
  {
    set i | 0 <= i < |pages| && Search(PdfText(pages[i])).None?
  }

  /** Adding a page adds its index exactly when it has no match; the index
      is new, since every earlier one is smaller. */
  lemma UnmatchedPagesSnoc(pages: seq<OcrPage>)
    requires |pages| > 0
    ensures var m := |pages| - 1;
      m !in UnmatchedPages(pages[..m])
      && UnmatchedPages(pages) == UnmatchedPages(pages[..m])
         + (if Search(PdfText(pages[m])).None? then {m} else {})
  {
  }

  /** The roll-up of the PDF branch: one "No Aadhaar number detected" per
      page without a match, nothing for a page with one, and `valid` exactly
      when no page was counted. */
  function PdfReport(pages: seq<OcrPage>): (r: MaskReport)
    ensures |r.comments| == Unmatched(pages)
    ensures forall i :: 0 <= i < |r.comments| ==> r.comments[i] == NoAadhaarComment
    ensures r.valid <==> r.comments == []
    ensures r.summary == (if r.valid then CompletedSummary else InvalidSummary)
  {
    var n := Unmatched(pages);
    MaskReport(n == 0, Repeated(NoAadhaarComment, n), Summary(n == 0))
  }

  /** `n` copies of `c`, as `n` appends of it leave them. */
  function Repeated(c: string, n: nat): (r: seq<string>)
    ensures |r| == n
    ensures forall i :: 0 <= i < n ==> r[i] == c
  {
    if n == 0 then [] else Repeated(c, n - 1) + [c]
  }

  /** The roll-up of the image branch: the one comment of the first page,
      and `valid` exactly when that page's number passed the checksum. */
  function ImageReport(page: OcrPage): (r: MaskReport)
    ensures r.valid <==> Decide(ImageText(page)).Passed?
    ensures r.comments == [Report(Decide(ImageText(page))).0]
    ensures r.summary == (if r.valid then CompletedSummary else InvalidSummary)
  {
    var (comment, invalid) := Report(Decide(ImageText(page)));
    MaskReport(invalid == 0, [comment], Summary(invalid == 0))
  }

  /** A page is counted as a failure exactly when it has no match. */
  lemma {:induction false} UnmatchedZeroIff(pages: seq<OcrPage>)
    ensures Unmatched(pages) == 0 <==> forall i :: 0 <= i < |pages| ==> Search(PdfText(pages[i])).Some?
    decreases |pages|
  {
    if pages != [] {
      var n := |pages| - 1;
      UnmatchedZeroIff(pages[..n]);
      forall i | 0 <= i < n ensures pages[..n][i] == pages[i] {
      }
    }
  }

  /** A PDF is valid exactly when every page holds a match, even if every
      one of those numbers would fail the checksum; a single page without
      a match makes the whole document invalid. */
  lemma PdfValidIffEveryPageMatches(pages: seq<OcrPage>)
    ensures PdfReport(pages).valid <==> forall i :: 0 <= i < |pages| ==> Search(PdfText(pages[i])).Some?
  {
    UnmatchedZeroIff(pages);
  }

  /** The same lines can hold a number for the PDF branch and none for the
      image branch, because the two join the lines differently. */
  lemma JoinSeparatorMatters()
    ensures var page := OcrPage(["1234 5678", "9012"], []);
      && Search(PdfText(page)).Some?
      && Search(ImageText(page)).None?
  {
    var page := OcrPage(["1234 5678", "9012"], []);
    assert PdfText(page) == "1234 5678 9012";
    assert AadhaarAt(PdfText(page), 0);
    assert ImageText(page) == "1234 5678\n9012";
    assert !AadhaarAt(ImageText(page), 0);
  }

  /** The page loop of the PDF branch of `mask_aadhar_final`: counts the
      pages whose " "-joined text has no match, appending one comment for
      each; a page with a match adds nothing. */
  method ScanPdfPages(pages: seq<OcrPage>) returns (invalidCount: nat, comments: seq<string>)
    ensures invalidCount == Unmatched(pages)
    ensures comments == PdfReport(pages).comments
  {
    invalidCount := 0;
    comments := [];
    var i := 0;
    while i < |pages|
      invariant 0 <= i <= |pages|
      invariant invalidCount == Unmatched(pages[..i])
      invariant comments == Repeated(NoAadhaarComment, invalidCount)
    {
      assert pages[..i + 1][..i] == pages[..i];
      var text := PdfText(pages[i]);
      if Search(text).None? {
        invalidCount := invalidCount + 1;
        comments := comments + [NoAadhaarComment];
      }
      i := i + 1;
    }
    assert pages[..|pages|] == pages;
  }

  /** `mask_aadhar_final` after the OCR call, with its pages as input. A PDF
      is only scanned, never painted; an image is passed to
      `MaskAadhaarImg` with the words `getattr(page, "words", [])` finds on
      a dictionary page, i.e. none, so the image is never painted either,
      although a passing number is still reported as masked. An image
      whose OCR reply has no pages fails on `pages[0]`. */
  method MaskAadhaarFinal(inputPath: string, pages: seq<OcrPage>, img: array2<Rgb>)
      returns (r: Result<MaskReport, string>)
    modifies img
    ensures IsPdfPath(inputPath) ==> r == Ok(PdfReport(pages))
    ensures !IsPdfPath(inputPath) && pages == [] ==> r == Err(IndexErrorMessage)
    ensures !IsPdfPath(inputPath) && pages != [] ==> r == Ok(ImageReport(pages[0]))
    ensures forall y, x :: 0 <= y < img.Length0 && 0 <= x < img.Length1 ==> img[y, x] == old(img[y, x])
  {
    var comments: seq<string> := [];
    var invalidCount := 0;
    if IsPdfPath(inputPath) {
      invalidCount, comments := ScanPdfPages(pages);
    } else {
      if |pages| == 0 {
        return Err(IndexErrorMessage);
      }
      ghost var o := Decide(ImageText(pages[0]));
      var comment, invalid := MaskAadhaarImg(img, pages[0], []);
      assert (comment, invalid) == Report(o);
      forall y, x | 0 <= y < img.Length0 && 0 <= x < img.Length1
        ensures !Painted(o, [], x, y)
      {
      }
      invalidCount := invalidCount + invalid;
      comments := comments + [comment];
      assert comments == ImageReport(pages[0]).comments;
    }
    var valid := invalidCount == 0;
    r := Ok(MaskReport(valid, comments, if valid then CompletedSummary else InvalidSummary));
  }
}
