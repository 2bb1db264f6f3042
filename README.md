# Forms_OCR decision logic in Dafny

Forms_OCR reads Indian identity documents (Aadhaar, PAN, driving licence and
voter ID / EPIC cards) with OCR or a vision LLM. It then decides what to mask
and what to report. This project models the text and decision logic around
the recognisers, and proves what that logic promises. The recognisers
themselves are inputs: OCR pages, frame texts and LLM replies are parameters.

Modules:

- `Verhoeff` (verhoeff.dfy). The Aadhaar check digit from
  `aadhar_masking_app/masking.py`. It holds the two tables of the D5
  scheme, the right-to-left fold as a loop (`ComputeChecksum`) and a
  function (`Checksum`), and the single-digit-error property.
- `Masking` (masking.dfy). The rest of `masking.py`:
  - the `\d{4} \d{4} \d{4}` search with digit look-around;
  - the three page outcomes of `mask_aadhar_img`;
  - painting word boxes orange in place on a 2-D pixel array;
  - the roll-up of comments, validity flag and summary in
    `mask_aadhar_final`, for PDFs and for single images.
- `LegacyOcr` (legacy_ocr.dfy). The older helpers in
  `Under_Development/aadhar_masking.py`:
  - the 14-character window test `find_text`;
  - the 25-frame probe `addhar_check`, with OCR abstracted;
  - the field extraction `adhaar_read_data`;
  - the line search `findword`.
- `IdNumbers` (pan_lic_vi.dfy). The DL, PAN and EPIC extractors of
  `Under_Development/pan_lic_vi.py`: the three anchored patterns, the
  per-line collection, order-preserving de-duplication and `pan_correction`.
- `LlmReply` (llm_reply.dfy). The parsers around the vision LLM in
  `pan_app.py`, `LLM_based.py` and `Under_Development/LLM_v2.py`:
  - the comma-separated reply;
  - the file-extension dispatch;
  - the data-URL split and the messages of the Dash callback.
- `PyText` (pytext.dfy) and `Wrappers` (wrappers.dfy). The Python string
  operations the code relies on (`strip`, `split`, `split()`, `lower`,
  `replace`, `endswith`, negative slices, `list.index`), and `Option` and
  `Result`.

Behaviour of the code that the model follows:

- A document is `valid` only when no failure was counted, so one PDF page
  without a match makes it invalid (masking.py:139-141, 155).
- PDF pages with a match add no comment and are not masked
  (masking.py:138-143).
- The PDF is re-encoded unchanged (masking.py:144).
- The image branch reads words with `getattr(page, "words", [])`. On a dict
  page this is always `[]`, so nothing is ever painted. The page is still
  reported as "Aadhaar masked successfully". `MaskAadhaarImg` takes the
  word list as a parameter. `MaskAadhaarFinal` passes `[]`, as the code
  does.
- Bounding boxes are painted as given. There is no scaling by
  `POINTS_PER_INCH`, which is declared but never used.
- Pages are processed one after another. There is no concurrency, timeout
  or page limit.
- `find_text` never examines the window that ends at the last character. A
  number at the very end of the text is therefore missed, and
  `TrailingNumberMissed` exhibits this.

The Verhoeff single-error property is proved from two facts. The
multiplication table is a Latin square: it cancels on both sides, using an
explicit table of inverses. Each permutation row is a bijection: row
`(8 - i) % 8` undoes row `i`. Associativity of the group operation is not
needed, so it is not proved.

## Model

| member | source | states |
|---|---|---|
| Verhoeff.Mult | aadhar_masking_app/masking.py:21-32 | every entry of the multiplication table is a digit 0..9 |
| Verhoeff.Perm | aadhar_masking_app/masking.py:34-43 | every entry of the eight permutation rows is a digit 0..9 |
| Verhoeff.MultCancelLeft | aadhar_masking_app/masking.py:21-32 | `mult[c][x] == mult[c][y]` implies `x == y` (left cancellation in D5) |
| Verhoeff.MultCancelRight | aadhar_masking_app/masking.py:21-32 | `mult[a][z] == mult[b][z]` implies `a == b` (right cancellation) |
| Verhoeff.MultLeftInverse | aadhar_masking_app/masking.py:21-32 | every element has a left inverse in the multiplication table |
| Verhoeff.MultRightInverse | aadhar_masking_app/masking.py:21-32 | every element has a right inverse in the multiplication table |
| Verhoeff.PermInverse | aadhar_masking_app/masking.py:34-43 | row `(8-i)%8` of the permutation table undoes row `i` |
| Verhoeff.PermRowInverse | aadhar_masking_app/masking.py:34-43 | row j of the permutation table undoes row i when i + j is 8 (or both are 0) |
| Verhoeff.PermInjective | aadhar_masking_app/masking.py:34-43 | each permutation row is one-to-one |
| Verhoeff.ReversedDigits | aadhar_masking_app/masking.py:51 | `[int(n) for n in number[::-1]]`: same length, position i holds the digit at `len-1-i` |
| Verhoeff.Fold | aadhar_masking_app/masking.py:52-55 | the running checksum after the first k reversed digits: 0 before any digit, then `mult[c][perm[i % 8][n]]` for digit i |
| Verhoeff.Checksum | aadhar_masking_app/masking.py:49-55 | the fold over all the reversed digits, which ComputeChecksum is proved to compute |
| Verhoeff.Accepted | aadhar_masking_app/masking.py:115 | a number is accepted iff its checksum is 0 |
| Verhoeff.ComputeChecksum | aadhar_masking_app/masking.py:49-55 | the loop returns a value in 0..9 equal to the right-to-left fold `mult[c][perm[i & 7][n]]` |
| Verhoeff.FoldAgreeBefore | aadhar_masking_app/masking.py:53-54 | the fold over two digit lists that differ only at position m agrees on every prefix up to m |
| Verhoeff.FoldSameStep | aadhar_masking_app/masking.py:53-54 | folding the same digit onto equal running checksums keeps them equal |
| Verhoeff.FoldDifferAt | aadhar_masking_app/masking.py:53-54 | folding two different digits at the same position onto equal running checksums makes them differ |
| Verhoeff.FoldKeepsDiffer | aadhar_masking_app/masking.py:53-54 | folding the same digit onto different running checksums keeps them different |
| Verhoeff.FoldDifferAfter | aadhar_masking_app/masking.py:53-54 | once the differing position is folded in, the running checksums differ for the rest of the fold |
| Verhoeff.SingleDigitChangesChecksum | aadhar_masking_app/masking.py:49-55 | two digit strings that differ in exactly one position have different checksums |
| Verhoeff.SingleDigitErrorRejected | aadhar_masking_app/masking.py:113-115 | changing one digit of an accepted number (checksum 0) makes it rejected |
| Masking.SearchFrom | aadhar_masking_app/masking.py:18 | finds the least position at or after `start` holding 4 digits, space, 4 digits, space, 4 digits with no digit just before or after; None when there is none |
| Masking.AadhaarAt | aadhar_masking_app/masking.py:18 | the pattern matches at p: 4 digits, space, 4 digits, space, 4 digits inside the text, no digit just before p, and no digit just after the 14 characters |
| Masking.Search | aadhar_masking_app/masking.py:109 | `AADHAAR_PATTERN.search` with the pattern of line 18: the leftmost match position, or None when no position matches |
| Masking.MatchShape | aadhar_masking_app/masking.py:114-116 | the matched text is already stripped, `split()` gives its three groups, and removing whitespace gives 12 digits |
| Masking.MatchedNumber | aadhar_masking_app/masking.py:114 | `re.sub(r"\s", "", match.group())` is the three groups concatenated, 12 digits |
| Masking.MaskedGroups | aadhar_masking_app/masking.py:116 | `match.group().strip().split()[:2]` is the first two groups |
| Masking.Decide | aadhar_masking_app/masking.py:109-124 | no match iff the search fails; on a match, passed iff the 12 digits are Verhoeff-accepted, and then the masked words are exactly the first two groups |
| Masking.Report | aadhar_masking_app/masking.py:110-124 | the fixed (comment, invalid) pair of each outcome; invalid is 0 exactly on a pass |
| Masking.ImageText | aadhar_masking_app/masking.py:107 | the page text of the image path: the line contents joined by "\n" |
| Masking.PdfText | aadhar_masking_app/masking.py:137 | the page text of the PDF path: the line contents joined by " " |
| Masking.IsTarget | aadhar_masking_app/masking.py:106-118 | a word is painted iff it holds a digit (the filter of line 106) and its stripped content is one of the masked words (line 118) |
| Masking.ReportDistinguishesOutcomes | aadhar_masking_app/masking.py:110-124 | the three comments are distinct, so the comment identifies the outcome |
| Masking.PaintTargets | aadhar_masking_app/masking.py:117-120 | after the word loop a pixel is orange iff the word-by-word painting covers it (which PaintedByIff characterises as lying in the box of a word whose trimmed content is a masked group); every other pixel is unchanged |
| Masking.PaintedByHasTarget | aadhar_masking_app/masking.py:117-120 | a pixel painted by the word loop lies in the box of a target word |
| Masking.TargetPaints | aadhar_masking_app/masking.py:117-120 | a pixel in the box of a target word is painted by the word loop |
| Masking.PaintedByIff | aadhar_masking_app/masking.py:117-120 | a pixel is painted by the word loop iff some word with trimmed content in the masked set has a bbox containing it |
| Masking.PaintedOnlyInTargetBoxes | aadhar_masking_app/masking.py:113-120 | a painted pixel implies a match whose checksum passed, and a digit-bearing word equal to group 1 or 2 whose bbox contains the pixel |
| Masking.ThirdGroupNotMasked | aadhar_masking_app/masking.py:114-116 | a word equal to the third group is a target only when that group repeats the first or the second |
| Masking.DigitWords | aadhar_masking_app/masking.py:106 | the word filter keeps only words containing a digit |
| Masking.DigitWordsPaint | aadhar_masking_app/masking.py:106-120 | filtering words by "has a digit" paints exactly the same pixels as using all words |
| Masking.PaintRectangle | aadhar_masking_app/masking.py:119-120 | `img_draw.rectangle(..., fill)`: pixels inside the inclusive box get the fill, and every other pixel is unchanged |
| Masking.MaskAadhaarImg | aadhar_masking_app/masking.py:103-126 | returns the outcome's (comment, invalid) pair; each pixel is orange iff the outcome passed and a target word's box contains it, and otherwise unchanged |
| Masking.Summary | aadhar_masking_app/masking.py:156 | "Aadhaar masking completed" when valid, "Invalid or no Aadhaar detected" otherwise |
| Masking.IsPdfPath | aadhar_masking_app/masking.py:134 | the PDF branch is taken iff the lower-cased path ends in ".pdf" |
| Masking.Unmatched | aadhar_masking_app/masking.py:136-142 | the count is the number of page indices whose " "-joined text has no match, so at most the number of pages |
| Masking.PdfReport | aadhar_masking_app/masking.py:134-163 | one "No Aadhaar number detected" comment per unmatched page; valid iff there are no comments; the matching summary |
| Masking.Repeated | aadhar_masking_app/masking.py:141 | n copies of the same comment |
| Masking.ImageReport | aadhar_masking_app/masking.py:146-163 | the single comment of the first page; valid iff that page's outcome passed; the matching summary |
| Masking.UnmatchedZeroIff | aadhar_masking_app/masking.py:136-155 | no failure is counted iff every page's " "-joined text has a match |
| Masking.PdfValidIffEveryPageMatches | aadhar_masking_app/masking.py:134-155 | a PDF is valid iff every page has a match (no checksum is applied on the PDF path) |
| Masking.JoinSeparatorMatters | aadhar_masking_app/masking.py:107-137 | a page whose number spans two lines matches on the PDF path (" " join) but not on the image path ("\n" join) |
| Masking.ScanPdfPages | aadhar_masking_app/masking.py:136-142 | the page loop counts exactly the unmatched pages and appends their comments in page order |
| Masking.MaskAadhaarFinal | aadhar_masking_app/masking.py:128-163 | PDF: the PDF report; image: the first page's report, or IndexError when there are no pages; the image is left unchanged because the words list is empty |
| LegacyOcr.DeleteSeparatedSpaces | Under_Development/aadhar_masking.py:134 | `replace(" ", "")` distributes over a window that has spaces at positions 4 and 9 |
| LegacyOcr.CountSeparatedSpaces | Under_Development/aadhar_masking.py:133-135 | a window separated at 4 and 9 holds two more spaces than its three parts |
| LegacyOcr.WindowTest | Under_Development/aadhar_masking.py:133-139 | the test of one window step by step: spaces at offsets 4 and 9; then, with spaces removed, the last 12 characters (negative start counted from the end) are non-empty, numeric and at least 12 long |
| LegacyOcr.WindowTestIff | Under_Development/aadhar_masking.py:133-139 | the space, replace, slice and `isnumeric` test on a 14-character window holds iff the window is exactly dddd dddd dddd |
| LegacyOcr.WindowTestPartsNoSpace | Under_Development/aadhar_masking.py:134-139 | a window the test accepts has no space inside its three parts, since 12 characters remain after deleting spaces |
| LegacyOcr.WindowTestSpaceFree | Under_Development/aadhar_masking.py:134-139 | with no space inside the three parts, the test holds iff the parts are all digits |
| LegacyOcr.FindText | Under_Development/aadhar_masking.py:126-141 | the loop applies the window test to each `text[i-14:i]`; returns 0 or 1; 1 iff some window `text[i-14:i]` with 14 <= i < len(text) is dddd dddd dddd; 0 for any text of length <= 14 |
| LegacyOcr.TrailingNumberMissed | Under_Development/aadhar_masking.py:131 | a number ending the text ("No 1234 5678 9012") is not found |
| LegacyOcr.NumberBeforeNewlineFound | Under_Development/aadhar_masking.py:131 | the same text followed by a newline is found |
| LegacyOcr.WindowSeparatorAt | Under_Development/aadhar_masking.py:132-133 | a window `text[i-14:i]` that passes has a space at `text[i-10]` |
| LegacyOcr.GroupsFormWindow | Under_Development/aadhar_masking.py:132-139 | three 4-digit groups joined by single spaces form a window the test accepts |
| LegacyOcr.ProbeFrom | Under_Development/aadhar_masking.py:145-178 | the value `u` the probe returns from frame i on: 25 at the cap, 0 when the frames run out, i + 1 on a hit, otherwise the next frame |
| LegacyOcr.ProbeFromSpec | Under_Development/aadhar_masking.py:145-178 | the probe returns 0 iff the frames run out before a hit; otherwise the 1-based index of the first hit frame, or 25 when the cap is reached, where 25 covers both a hit on frame 25 and no hit in 25 frames |
| LegacyOcr.AddharCheck | Under_Development/aadhar_masking.py:143-178 | the loop over at most 25 frames, trying raw then blurred OCR text with `find_text`, computes the probe result |
| LegacyOcr.CleanLines | Under_Development/aadhar_masking.py:27-33 | one stripped entry per `split('\n')` line |
| LegacyOcr.StripLines | Under_Development/aadhar_masking.py:27-33 | the line loop builds exactly the stripped lines |
| LegacyOcr.NonBlank | Under_Development/aadhar_masking.py:40 | `filter(None, ...)` keeps only non-empty lines, each drawn from the input |
| LegacyOcr.NonBlankAt | Under_Development/aadhar_masking.py:40-41 | the k-th non-empty line is kept at the position given by the number of non-empty lines before it (order is kept) |
| LegacyOcr.MapConfusedDigits | Under_Development/aadhar_masking.py:48-51 | the four `replace` calls keep the length and map each character independently: 8 to B, 0 to D, 6 to G, 1 to I, any other character unchanged |
| LegacyOcr.CollapseNonLetters | Under_Development/aadhar_masking.py:52 | `re.sub('[^a-zA-Z]+', ' ', s)`: only letters and single spaces remain, the letters are kept in order, and a non-empty input gives a non-empty result |
| LegacyOcr.CollapseByChar | Under_Development/aadhar_masking.py:52 | reference reading of the substitution, one character at a time: a letter is kept, a non-letter that starts a run becomes one space, and a non-letter that continues a run is dropped |
| LegacyOcr.CollapseNonLettersByChar | Under_Development/aadhar_masking.py:52 | the run-by-run substitution equals the character-by-character reference, so each run of non-letters becomes exactly one space where it stood |
| LegacyOcr.NonLetterRun | Under_Development/aadhar_masking.py:52 | the maximal run of non-letters at the front |
| LegacyOcr.Letters | Under_Development/aadhar_masking.py:52 | the letter subsequence (used to state what the substitution keeps) |
| LegacyOcr.LettersAfterRun | Under_Development/aadhar_masking.py:52 | dropping a run of non-letters does not change the letters |
| LegacyOcr.CleanName | Under_Development/aadhar_masking.py:45-52 | the cleaned name is the character-by-character reference substitution of the stripped, digit-mapped line; so it holds only letters and single spaces, and the letters of that line |
| LegacyOcr.CleanDob | Under_Development/aadhar_masking.py:55-65 | the cleaned DOB is the one-pass rewrite of the stripped last ten characters: each of l, L, I, i, \| becomes '/', '"' becomes "/1", ':' and ' ' are dropped, anything else is kept |
| LegacyOcr.DobRewriteByChar | Under_Development/aadhar_masking.py:58-65 | the eight `replace` passes in order equal one pass of the per-character rewrite: no pass rewrites what an earlier pass produced |
| LegacyOcr.DobRewriteConcat | Under_Development/aadhar_masking.py:58-65 | the eight passes distribute over concatenation |
| LegacyOcr.DobRewriteChar | Under_Development/aadhar_masking.py:58-65 | on a single character the eight passes give exactly its per-character rewrite |
| LegacyOcr.CleanDobRewritesAll | Under_Development/aadhar_masking.py:55-65 | the cleaned DOB has none of l, L, I, i, \|, ", : or space |
| LegacyOcr.DateCharsUnchanged | Under_Development/aadhar_masking.py:58-65 | rewriting a character other than a digit or '/' leaves a string of digits and '/' unchanged |
| LegacyOcr.CleanDobKeepsCleanDate | Under_Development/aadhar_masking.py:55-65 | on a line of digits and '/', DOB cleaning is just the last 10 characters |
| LegacyOcr.GroupsOf | Under_Development/aadhar_masking.py:69-71 | the tokens that are exactly four digits, in order |
| LegacyOcr.FourDigitGroups | Under_Development/aadhar_masking.py:69-71 | the number field: each 4-digit token, in order, followed by one space |
| LegacyOcr.FourDigitGroupsSnoc | Under_Development/aadhar_masking.py:69-71 | appending a token appends "dddd " iff the token is a 4-digit group |
| LegacyOcr.FourDigitGroupsSplit | Under_Development/aadhar_masking.py:68-76 | `split()` of the accumulated number gives back exactly the 4-digit tokens in order |
| LegacyOcr.CollectGroups | Under_Development/aadhar_masking.py:68-71 | the loop builds the in-order concatenation of each 4-digit token followed by one space |
| LegacyOcr.AdhaarReadData | Under_Development/aadhar_masking.py:16-86 | sex is FEMALE iff "female" occurs in the lower-cased text; ID type is "Adhaar"; the name is cleaned from the first non-blank line and the DOB from the second; the number is the "dddd " string of the 4-digit tokens of the whole text's `split()`, and it is set, like the DOB, only when there are at least two non-blank lines (with fewer, the IndexError leaves them None) |
| LegacyOcr.FemaleAnyCase | Under_Development/aadhar_masking.py:35 | the test ignores case: "Sex: FEMALE" is recognised |
| LegacyOcr.FirstMatchingLine | Under_Development/aadhar_masking.py:91-94 | the first line with a matching word, and no earlier line matches; None when no line matches |
| LegacyOcr.FindWord | Under_Development/aadhar_masking.py:88-97 | the lines after the first matching line, or the list unchanged when none matches |
| IdNumbers.FindAll | Under_Development/pan_lic_vi.py:12-20 | `re.findall` (line 66) of an anchored pattern gives at most one match per line |
| IdNumbers.FindAllSpec | Under_Development/pan_lic_vi.py:12-20 | a match is a prefix of the line accepted by the pattern; none iff no prefix length is accepted; the longest accepted length is taken (DL prefers 16 characters to 15) |
| IdNumbers.IsMatchText | Under_Development/pan_lic_vi.py:12-20 | the three character classes: DL two upper-case letters then 14 or 13 digits; PAN five upper-case letters or digits, four digits, one upper-case letter or digit; EPIC three letters then seven digits |
| IdNumbers.AnchoredMatch | Under_Development/pan_lic_vi.py:12-20 | a match of length n at the start of the text; for EPIC the match must also end the text or stand just before a final newline (`$`) |
| IdNumbers.LinesMatchesIff | Under_Development/pan_lic_vi.py:64-68 | a value is collected from a page iff some line's text yields it |
| IdNumbers.LinesMatchesFromLine | Under_Development/pan_lic_vi.py:64-68 | a value that some line's text yields is collected from the page |
| IdNumbers.LinesMatchesHasLine | Under_Development/pan_lic_vi.py:64-68 | every value collected from a page is yielded by some line's text |
| IdNumbers.ResultMatchesIff | Under_Development/pan_lic_vi.py:63-68 | a value is collected from a result iff some line of some page yields it |
| IdNumbers.ResultMatchesFromLine | Under_Development/pan_lic_vi.py:63-68 | a value that a line of some page yields is collected from the result |
| IdNumbers.ResultMatchesHasLine | Under_Development/pan_lic_vi.py:63-68 | every value collected from a result is yielded by some line of some page |
| IdNumbers.LinesMatchesAtMostOnePerLine | Under_Development/pan_lic_vi.py:64-68 | a page contributes at most one value per line |
| IdNumbers.ResultMatches | Under_Development/pan_lic_vi.py:60-69 | the matches of a result, entry by entry and line by line |
| IdNumbers.PagesMatches | Under_Development/pan_lic_vi.py:31-36 | the matches of the pages' results, page by page |
| IdNumbers.ProcessLines | Under_Development/pan_lic_vi.py:64-68 | the inner loop collects the matches of one entry's lines in line order |
| IdNumbers.ProcessPages | Under_Development/pan_lic_vi.py:31-36 | the PDF page loop extends the list with each page's matches, in page order |
| IdNumbers.ProcessOcrResult | Under_Development/pan_lic_vi.py:60-69 | the nested loops collect the matches in page-then-line order, reading each line's text |
| IdNumbers.Dedup | Under_Development/pan_lic_vi.py:38 | `dict.fromkeys`: the same set of values, with no duplicates |
| IdNumbers.IndexOfPrefix | Under_Development/pan_lic_vi.py:38 | a value's first index is the same in a prefix that contains it |
| IdNumbers.DedupKeepsFirstOrder | Under_Development/pan_lic_vi.py:38 | de-duplicated values appear in the order of their first occurrence |
| IdNumbers.PanCorrection | Under_Development/pan_lic_vi.py:50-57 | shorter than 10: unchanged; otherwise exactly 10 characters, with '0'→'O' at positions 0-4 and 9 and positions 5-8 copied |
| IdNumbers.PanCorrectionIdempotent | Under_Development/pan_lic_vi.py:50-57 | correcting twice equals correcting once |
| IdNumbers.PostProcess | Under_Development/pan_lic_vi.py:38-47 | empty iff nothing matched; the de-duplicated values, corrected one by one for PAN |
| IdNumbers.IsImageName | Under_Development/pan_lic_vi.py:27 | the image branch is taken iff the lower-cased name ends in .jpg, .png or .jpeg |
| IdNumbers.CorrectionMergesZeroAndO | Under_Development/pan_lic_vi.py:53 | a value with '0' at position 4 and the same value with 'O' there are different but correct to the same PAN |
| IdNumbers.DedupOfDistinctPair | Under_Development/pan_lic_vi.py:38 | two distinct values both survive de-duplication |
| IdNumbers.CorrectionAfterDedupCanDuplicate | Under_Development/pan_lic_vi.py:38-41 | for every PAN match with '0' at position 4, the same match with 'O' there is also a PAN match, and post-processing the pair returns the corrected value twice, because correction runs after de-duplication |
| IdNumbers.ExtractNumbers | Under_Development/pan_lic_vi.py:22-47 | images (.jpg/.png/.jpeg, any case) use the single OCR result, other files the page results; then de-duplication, and PAN correction for PAN |
| LlmReply.ReplyParts | pan_app.py:53-55 | `strip().split(',')`: one part more than the commas, no part holds a comma, and joining the parts with ',' restores the stripped reply |
| LlmReply.DetailsOf | pan_app.py:60-65 | the four fields are stripped |
| LlmReply.ExtractPanDetailsGuarded | pan_app.py:41-68 | None when the call fails or the stripped reply does not have exactly three commas; otherwise parts 0..3, each stripped |
| LlmReply.ExtractPanDetails | LLM_based.py:41-59 | IndexError iff the stripped reply has fewer than three commas; otherwise parts 0..3, each stripped, with later parts ignored |
| LlmReply.GuardedAgreesWithUnguarded | Under_Development/LLM_v2.py:43-50 | where the guarded parse succeeds the unguarded one gives the same details; with more than four parts only the unguarded one succeeds |
| LlmReply.ParseFormattedReply | pan_app.py:48-65 | a reply in the prompt's format "name, father, PAN, DOB" (non-empty, comma-free, trimmed fields) parses back to those fields, guarded or not |
| LlmReply.DocumentRoute | pan_app.py:14-18 | the PDF path iff the name ends in ".pdf" in any case |
| LlmReply.DocumentRouteIgnoresCase | LLM_based.py:7-11 | the dispatch gives the same route for a name and its lower-cased form |
| LlmReply.IsSupportedName | Under_Development/LLM_v2.py:8-11 | a name is supported iff its lower-cased form ends in one of .pdf, .jpeg, .jpg, .png, .tiff, .tif |
| LlmReply.DocumentRouteChecked | Under_Development/LLM_v2.py:7-14 | ValueError with its message iff no supported extension ends the lower-cased name; the PDF path iff the name ends in ".pdf" |
| LlmReply.CheckedRouteRefinesRoute | Under_Development/LLM_v2.py:8-12 | an accepted name is routed as the unchecked dispatch routes it, so ".pdf" never takes the image path |
| LlmReply.SplitDataUrl | pan_app.py:141 | the two-way unpacking succeeds iff the data URL has exactly one comma; the header and payload joined by ',' restore it |
| LlmReply.DisplayPanDetails | pan_app.py:136-169 | nothing without an upload; the processing-error message iff the split or the image decode fails; the could-not-extract message iff the parse gives None; otherwise the four paragraphs "Name: ", "Father's Name: ", "PAN NO: " and "DOB: " followed by the parsed fields |
| PyText.Strip | pan_app.py:53 | `strip()` returns a string with no whitespace at either end |
| PyText.StripSpec | pan_app.py:53 | `strip()` returns a contiguous part of the input, and every character outside that part is whitespace; with the ensures of Strip this fixes the result |
| PyText.StripTrimmed | pan_app.py:53 | `strip()` leaves a string with no whitespace at either end unchanged |
| PyText.StripLeadingSpace | pan_app.py:61-64 | stripping " field" gives back a trimmed, non-empty field |
| PyText.SplitJoin | pan_app.py:55 | `split(sep)` of a join of separator-free parts gives the parts back |
| PyText.Split | pan_app.py:55 | `split(sep)` gives one more part than there are separators, no part holds the separator, and joining the parts with it restores the input |
| PyText.SplitWs | aadhar_masking_app/masking.py:116 | `split()` gives non-empty tokens without whitespace |
| PyText.SplitWsFlatten | aadhar_masking_app/masking.py:116 | the tokens of `split()`, concatenated, are the input with all whitespace removed |
| PyText.ReplaceChar | Under_Development/aadhar_masking.py:48-51 | `replace(c, r)`: c no longer occurs unless r holds it, every character comes from r or is a kept character other than c, and a one-character r maps position by position |
| PyText.ReplaceCharConcat | Under_Development/aadhar_masking.py:48-65 | `replace` distributes over concatenation |
| PyText.RemoveSpaces | aadhar_masking_app/masking.py:114 | `re.sub(r"\s", "", s)` leaves no whitespace and is no longer than s |
| PyText.RemoveSpacesConcat | aadhar_masking_app/masking.py:114 | removing whitespace distributes over concatenation |
| PyText.RemoveSpacesNoSpace | aadhar_masking_app/masking.py:114 | a string without whitespace is unchanged |
| PyText.SliceFrom | Under_Development/aadhar_masking.py:55 | `s[start:]`: a suffix of s, of length len - start for 0 <= start <= len, of length -start for a negative start within range, the whole string below that |
| PyText.Lower | Under_Development/aadhar_masking.py:35 | `lower()` keeps the length and lower-cases each character as LowerChar does |
| PyText.LowerChar | Under_Development/aadhar_masking.py:35 | an upper-case ASCII letter moves to its lower-case form (code + 32); every other character is unchanged |
| PyText.LowerIdempotent | Under_Development/aadhar_masking.py:35 | lower-casing twice equals lower-casing once |

## Left out

- The recognisers are left out: pytesseract, PaddleOCR and the Ollama chat calls, including `analyze_read`. OCR pages, per-frame texts and LLM replies are inputs.
- Image and PDF codecs and base64 are left out: PIL, cv2, fitz, pdf2image, img2pdf, `convert_img_to_b64`, `convert_pdf_to_b64` and the `encode_*_to_base64` helpers. `document_to_base64` is modelled only as the choice of route.
- The Gaussian blur and the boolean-to-uint8 pixel rescaling of `addhar_check` are numeric image processing. The rescaling runs before both OCR calls, so both per-frame text inputs of `LegacyOcr.AddharCheck` (the raw text and the blurred text) absorb it; the blurred text also absorbs the blur.
- `Extract_and_Mask_UIDs` is left out, together with its cv2 rotations and blurs of the grey image. It calls `image_processing`, `Regex_Search` and `Mask_UIDs`, which are not part of this model.
- `mask_aadhar` and `merger` are left out: they are temporary-file handling and `os.remove`.
- aadhar_masking_app/main.py (the HTTP front door), the Dash layout and `save_json_response` (a timestamped file write) are left out.
- The PaddleOCR confidence score of each line is dropped: `PaddleLine` holds only the box and the text. The code reads neither the score nor the box.
- A `None` page in a PaddleOCR result is not modelled.
- Python's `\d` and `isdigit` also accept non-ASCII digits. The model accepts ASCII digits only.
- LegacyOcr.WindowTest: `isnumeric` in `find_text` accepts every Unicode numeric character, including ones that are not digits at all, such as '½' or 'Ⅻ'; so the source accepts a window like "1234 5678 901½", which the model rejects. The model accepts ASCII digits only.
- `lower()` is modelled for ASCII only. This is exact for the substring and suffix tests the code makes: the only non-ASCII characters that lower-case into ASCII letters are U+212A (to 'k') and U+0130 (to "i̇"). Neither can complete "female", ".pdf", ".jpg", ".png", ".jpeg", ".tiff" or ".tif".
- Verhoeff.ComputeChecksum: requires an all-digit string. The Python `int(n)` raises on anything else, and the only caller passes the 12 digits of a regex match.
- LegacyOcr.AddharCheck: `frameCount` stands for the frame at which `img.seek` raises EOFError; other exceptions from OCR or numpy are not modelled.
- LegacyOcr.AdhaarReadData: the `print` of the number, and exceptions other than the IndexError on missing lines, are not modelled.
- LegacyOcr.FindWord: `re.search(wordstring, w)` is an abstract predicate on words; the regex language is not modelled.
- IdNumbers.ExtractNumbers: the temporary JPEG names and the "No matches found" print are not modelled; the empty result is.
- LlmReply.DisplayPanDetails: pan_app.py:156 puts a backslash inside an f-string expression (`pan_dict['Father\'s Name']`). Python before 3.12 rejects that as a SyntaxError, so the file compiles only on Python 3.12 or later; the model assumes such a version.
- LlmReply.DisplayPanDetails: the `imageReadable` input stands for all of the image handling in the `try` block: decoding the payload, opening it as an image, and re-saving it as JPEG. Any of these can fail, for instance the JPEG save of an RGBA image, and each failure leads to the processing-error message. An exception from `save_json_response` is not modelled.
- Masking.MaskAadhaarFinal: the returned `base64_output` is not modelled. The input image array stands for the decoded image, and its contents are what would be encoded.
- Masking.PaintRectangle: a box with a maximum below its minimum paints nothing in the model. Pillow's own handling of such a box, which may raise ValueError in recent releases, is not modelled. The code never reaches the call, because its word list is always empty.
- Concurrency, timeouts and coordinate scaling are absent from the code, and so from the model.
