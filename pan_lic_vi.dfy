/** ID-number extraction from PaddleOCR output (`DocumentExtractor`):
    three start-anchored patterns (driving licence, PAN, EPIC), the
    collection of matches line by line, order-preserving de-duplication,
    and the positional '0' to 'O' fix-up applied to PAN numbers. */
module IdNumbers {

  import opened PyText

  datatype IdKind = DrivingLicence | Pan | Epic

  predicate IsUpperOrDigit(c: char)
  {
    IsUpper(c) || IsDigit(c)
  }

  predicate AllUpper(s: string)
  {
    forall i :: 0 <= i < |s| ==> IsUpper(s[i])
  }

  predicate AllLetters(s: string)
  {
    forall i :: 0 <= i < |s| ==> IsLetter(s[i])
  }

  /** The text `m` of a match of the kind's pattern:
      driving licence `[A-Z]{2}[0-9]{14}` or `[A-Z]{2}[0-9]{13}`,
      PAN `[A-Z0-9]{5}[0-9]{4}[A-Z0-9]{1}`, EPIC `[A-Za-z]{3}\d{7}`. */
  predicate IsMatchText(kind: IdKind, m: string)
  {
    match kind
    case DrivingLicence =>
      (|m| == 16 || |m| == 15) && AllUpper(m[..2]) && AllDigits(m[2..])
    case Pan =>
      |m| == 10 && IsUpperOrDigit(m[0]) && IsUpperOrDigit(m[1]) && IsUpperOrDigit(m[2])
      && IsUpperOrDigit(m[3]) && IsUpperOrDigit(m[4]) && AllDigits(m[5..9]) && IsUpperOrDigit(m[9])
    case Epic =>
      |m| == 10 && AllLetters(m[..3]) && AllDigits(m[3..])
  }

  /** The first `n` characters of `text` are a match anchored at the start
      (`^`, which without MULTILINE means the start of the whole text). For
      EPIC the trailing `$` also demands that the match end the text, or
      stand just before a final newline. */
  predicate AnchoredMatch(kind: IdKind, text: string, n: int)
  {
    0 <= n <= |text| && IsMatchText(kind, text[..n])
    && (kind == Epic ==> n == |text| || (n + 1 == |text| && text[n] == '\n'))
  }

  /** `re.findall(pattern, text)` for one of the three patterns. Only
      position 0 can match, so there is at most one match; of the two
      driving-licence alternatives the longer is tried first. */
  function FindAll(kind: IdKind, text: string): (r: seq<string>)
    ensures |r| <= 1
  {
    match kind
    case DrivingLicence =>
      if AnchoredMatch(kind, text, 16) then [text[..16]]
      else if AnchoredMatch(kind, text, 15) then [text[..15]]
      else []
    case Pan =>
      if AnchoredMatch(kind, text, 10) then [text[..10]] else []
    case Epic =>
      if AnchoredMatch(kind, text, 10) then [text[..10]] else []
  }

  /** What `findall` returns: the prefix that matches (the longest, where
      both driving-licence alternatives do), or nothing when no prefix does. */
  lemma FindAllSpec(kind: IdKind, text: string)
    ensures var r := FindAll(kind, text);
      && (r != [] ==> AnchoredMatch(kind, text, |r[0]|) && r[0] == text[..|r[0]|])
      && (r == [] <==> forall n :: 0 <= n <= |text| ==> !AnchoredMatch(kind, text, n))
      && (r != [] ==> forall n :: |r[0]| < n <= |text| ==> !AnchoredMatch(kind, text, n))
  {
  }

  /** A recognised line of PaddleOCR output: `line[0]` is the box,
      `line[1][0]` the text. */
  datatype PaddleLine = PaddleLine(box: seq<(int, int)>, text: string)

  /** `re.findall` with the pattern of `kind`, as a function of the text. */
  function Finder(kind: IdKind): string -> seq<string>
  {
    (text: string) => FindAll(kind, text)
  }

  /** The matches of the lines of one result entry, in line order, for the
      pattern whose `re.findall` is `find`. */
  function LinesMatches(lines: seq<PaddleLine>, find: string -> seq<string>): seq<string>
  {
    if lines == [] then []
    else LinesMatches(lines[..|lines| - 1], find) + find(lines[|lines| - 1].text)
  }

  /** The matches of a whole OCR result, entry by entry, then line by line. */
  function ResultMatches(result: seq<seq<PaddleLine>>, find: string -> seq<string>): seq<string>
  {
    if result == [] then []
    else ResultMatches(result[..|result| - 1], find) + LinesMatches(result[|result| - 1], find)
  }

  /** A value is collected exactly when it is the match of some line. */
  lemma LinesMatchesIff(lines: seq<PaddleLine>, find: string -> seq<string>, m: string)
    ensures m in LinesMatches(lines, find)
        <==> exists l :: 0 <= l < |lines| && m in find(lines[l].text)
  {
    if m in LinesMatches(lines, find) {
      LinesMatchesHasLine(lines, find, m);
    }
    if exists l :: 0 <= l < |lines| && m in find(lines[l].text) {
      var l :| 0 <= l < |lines| && m in find(lines[l].text);
      LinesMatchesFromLine(lines, find, m, l);
    }
  }

  lemma {:induction false} LinesMatchesFromLine(lines: seq<PaddleLine>, find: string -> seq<string>, m: string, l: int)
    requires 0 <= l < |lines| && m in find(lines[l].text)
    ensures m in LinesMatches(lines, find)
    decreases |lines|
  {
    var n := |lines| - 1;
    if l < n {
      assert lines[..n][l] == lines[l];
      LinesMatchesFromLine(lines[..n], find, m, l);
    }
  }

  lemma {:induction false} LinesMatchesHasLine(lines: seq<PaddleLine>, find: string -> seq<string>, m: string)
    requires m in LinesMatches(lines, find)
    ensures exists l :: 0 <= l < |lines| && m in find(lines[l].text)
    decreases |lines|
  {
    var n := |lines| - 1;
    if m in LinesMatches(lines[..n], find) {
      LinesMatchesHasLine(lines[..n], find, m);
      var l :| 0 <= l < n && m in find(lines[..n][l].text);
      assert lines[l] == lines[..n][l];
    } else {
      assert m in find(lines[n].text);
    }
  }

  /** A line's match lands in the result's matches. */
  predicate LineYields(result: seq<seq<PaddleLine>>, find: string -> seq<string>, m: string, p: int, l: int)
  {
    0 <= p < |result| && 0 <= l < |result[p]| && m in find(result[p][l].text)
  }

  lemma {:induction false} ResultMatchesFromLine(result: seq<seq<PaddleLine>>, find: string -> seq<string>, m: string, p: int, l: int)
    requires LineYields(result, find, m, p, l)
    ensures m in ResultMatches(result, find)
    decreases |result|
  {
    var n := |result| - 1;
    if p < n {
      assert result[..n][p] == result[p];
      ResultMatchesFromLine(result[..n], find, m, p, l);
    } else {
      LinesMatchesIff(result[n], find, m);
    }
  }

  lemma {:induction false} ResultMatchesHasLine(result: seq<seq<PaddleLine>>, find: string -> seq<string>, m: string)
    requires m in ResultMatches(result, find)
    ensures exists p, l :: LineYields(result, find, m, p, l)
    decreases |result|
  {
    var n := |result| - 1;
    if m in ResultMatches(result[..n], find) {
      ResultMatchesHasLine(result[..n], find, m);
      var p, l :| LineYields(result[..n], find, m, p, l);
      assert result[..n][p] == result[p];
      assert LineYields(result, find, m, p, l);
    } else {
      LinesMatchesIff(result[n], find, m);
      var l :| 0 <= l < |result[n]| && m in find(result[n][l].text);
      assert LineYields(result, find, m, n, l);
    }
  }

  /** A value is collected from a result exactly when some line of some
      entry yields it. */
  lemma ResultMatchesIff(result: seq<seq<PaddleLine>>, find: string -> seq<string>, m: string)
    ensures m in ResultMatches(result, find)
        <==> exists p, l :: 0 <= p < |result| && 0 <= l < |result[p]| && m in find(result[p][l].text)
  {
    if m in ResultMatches(result, find) {
      ResultMatchesHasLine(result, find, m);
      var p, l :| LineYields(result, find, m, p, l);
    }
    if exists p, l :: 0 <= p < |result| && 0 <= l < |result[p]| && m in find(result[p][l].text) {
      var p, l :| 0 <= p < |result| && 0 <= l < |result[p]| && m in find(result[p][l].text);
      ResultMatchesFromLine(result, find, m, p, l);
    }
  }

  /** Each line contributes at most one match of an anchored pattern. */
  lemma {:induction false} LinesMatchesAtMostOnePerLine(lines: seq<PaddleLine>, kind: IdKind)
    ensures |LinesMatches(lines, Finder(kind))| <= |lines|
  {
    if lines != [] {
      LinesMatchesAtMostOnePerLine(lines[..|lines| - 1], kind);
      assert |FindAll(kind, lines[|lines| - 1].text)| <= 1;
    }
  }

  /** The inner loop of `_process_ocr_result`: the matches of the lines of
      one result entry, in line order. */
  method ProcessLines(lines: seq<PaddleLine>, kind: IdKind) returns (matches: seq<string>)
    ensures matches == LinesMatches(lines, Finder(kind))
  {
    var find := Finder(kind);
    matches := [];
    var l := 0;
    while l < |lines|
      invariant 0 <= l <= |lines|
      invariant matches == LinesMatches(lines[..l], find)
    {
      assert lines[..l + 1][..l] == lines[..l];
      var found := FindAll(kind, lines[l].text);
      assert LinesMatches(lines[..l + 1], find) == LinesMatches(lines[..l], find) + found;
      if found != [] {
        matches := matches + found;
      } else {
        assert LinesMatches(lines[..l + 1], find) == LinesMatches(lines[..l], find);
      }
      l := l + 1;
    }
    assert lines[..|lines|] == lines;
  }

  /** `_process_ocr_result`: the matches of every line, entry by entry. */
  method ProcessOcrResult(result: seq<seq<PaddleLine>>, kind: IdKind) returns (matches: seq<string>)
    ensures matches == ResultMatches(result, Finder(kind))
  {
    matches := [];
    var p := 0;
    while p < |result|
      invariant 0 <= p <= |result|
      invariant matches == ResultMatches(result[..p], Finder(kind))
    {
      var found := ProcessLines(result[p], kind);
      matches := matches + found;
      assert result[..p + 1][..p] == result[..p];
      p := p + 1;
    }
    assert result[..|result|] == result;
  }

  /** `list(dict.fromkeys(xs))`: the first occurrence of each value, in
      order. */
  function Dedup(xs: seq<string>): (r: seq<string>)
    ensures forall x :: x in r <==> x in xs
    ensures forall i, j :: 0 <= i < j < |r| ==> r[i] != r[j]
  {
    if xs == [] then []
    else
      var d := Dedup(xs[..|xs| - 1]);
      var last := xs[|xs| - 1];
      assert forall x :: x in xs <==> x in xs[..|xs| - 1] || x == last;
      if last in d then d else d + [last]
  }

  /** The first position of a value that occurs in a prefix is the same in
      the whole list. */
  lemma IndexOfPrefix(xs: seq<string>, n: nat, x: string)
    requires n <= |xs| && x in xs[..n]
    ensures IndexOf(xs, x) == IndexOf(xs[..n], x)
  {
    var k := IndexOf(xs[..n], x);
    assert xs[k] == x;
    var m := IndexOf(xs, x);
    assert m <= k;
    assert xs[..n][m] == x;
  }

  /** De-duplication keeps values in the order of their first occurrence. */
  lemma {:induction false} DedupKeepsFirstOrder(xs: seq<string>)
    ensures forall i, j :: 0 <= i < j < |Dedup(xs)| ==> IndexOf(xs, Dedup(xs)[i]) < IndexOf(xs, Dedup(xs)[j])
  {
    if xs != [] {
      var n := |xs| - 1;
      var init := xs[..n];
      var d := Dedup(init);
      DedupKeepsFirstOrder(init);
      var r := Dedup(xs);
      if xs[n] !in d {
        assert xs[n] !in init;
        assert IndexOf(xs, xs[n]) == n;
        assert r == d + [xs[n]];
        forall i, j | 0 <= i < j < |r| ensures IndexOf(xs, r[i]) < IndexOf(xs, r[j]) {
          assert r[i] == d[i] && d[i] in init;
          IndexOfPrefix(xs, n, d[i]);
          if j < |d| {
            assert r[j] == d[j] && d[j] in init;
            IndexOfPrefix(xs, n, d[j]);
          }
        }
      } else {
        assert r == d;
        forall i, j | 0 <= i < j < |r| ensures IndexOf(xs, r[i]) < IndexOf(xs, r[j]) {
          assert d[i] in init && d[j] in init;
          IndexOfPrefix(xs, n, d[i]);
          IndexOfPrefix(xs, n, d[j]);
        }
      }
    }
  }

  /** `pan_correction`: a value of at least ten characters is cut to ten,
      with '0' read as 'O' at positions 0-4 and 9; a shorter one is
      returned as it is. */
  function PanCorrection(pan: string): (r: string)
    ensures |pan| < 10 ==> r == pan
    ensures |pan| >= 10 ==> |r| == 10
    ensures |pan| >= 10 ==> forall i :: 0 <= i < 10 ==>
      r[i] == (if (i < 5 || i == 9) && pan[i] == '0' then 'O' else pan[i])
  {
    if |pan| >= 10 then
      ReplaceChar(pan[0..5], '0', "O") + pan[5..9] + ReplaceChar([pan[9]], '0', "O")
    else pan
  }

  /** Correcting twice is correcting once. */
  lemma PanCorrectionIdempotent(pan: string)
    ensures PanCorrection(PanCorrection(pan)) == PanCorrection(pan)
  {
    if |pan| >= 10 {
      var r := PanCorrection(pan);
      var rr := PanCorrection(r);
      forall i | 0 <= i < 10 ensures rr[i] == r[i] {
      }
    }
  }

  /** After `_extract_numbers` has collected the raw matches: duplicates
      dropped, then every value corrected when the PAN fix-up is on and
      something was found. */
  function PostProcess(raw: seq<string>, correct: bool): (r: seq<string>)
    ensures r == [] <==> raw == []
    ensures |r| == |Dedup(raw)|
    ensures !correct ==> r == Dedup(raw)
    ensures correct ==> forall i :: 0 <= i < |r| ==> r[i] == PanCorrection(Dedup(raw)[i])
  {
    var d := Dedup(raw);
    if correct && d != [] then seq(|d|, i requires 0 <= i < |d| => PanCorrection(d[i]))
    else d
  }

  lemma DedupOfDistinctPair(a: string, b: string)
    requires a != b
    ensures Dedup([a, b]) == [a, b]
  {
    assert [a, b][..1] == [a];
    assert [a][..0] == [];
    assert Dedup([a]) == [a];
  }

  /** A PAN match read with '0' at position 4 and the same match read with
      'O' there are different values that the fix-up makes equal. */
  lemma CorrectionMergesZeroAndO(a: string)
    requires |a| >= 10 && a[4] == '0'
    ensures var b := a[..4] + "O" + a[5..];
      a != b && PanCorrection(a) == PanCorrection(b)
  {
    var b := a[..4] + "O" + a[5..];
    assert |b| == |a| && b[4] == 'O';
    forall i | 0 <= i < 10 ensures PanCorrection(a)[i] == PanCorrection(b)[i] {
      assert i != 4 ==> b[i] == a[i];
    }
  }

  /** The fix-up runs after de-duplication, so two different raw PAN
      matches can come out as the same value twice. */
  lemma CorrectionAfterDedupCanDuplicate(a: string)
    requires IsMatchText(Pan, a) && a[4] == '0'
    ensures var b := a[..4] + "O" + a[5..];
      && IsMatchText(Pan, b)
      && PostProcess([a, b], true) == [PanCorrection(a), PanCorrection(a)]
  {
    var b := a[..4] + "O" + a[5..];
    CorrectionMergesZeroAndO(a);
    assert b[5..9] == a[5..9];
    assert IsUpperOrDigit(b[4]);
    DedupOfDistinctPair(a, b);
  }

  /** `filename.lower().endswith(('.jpg', '.png', '.jpeg'))`. */
  predicate IsImageName(filename: string)
  {
    var lower := Lower(filename);
    EndsWith(lower, ".jpg") || EndsWith(lower, ".png") || EndsWith(lower, ".jpeg")
  }

  /** The matches of the OCR results of the pages, page by page. */
  function PagesMatches(pageResults: seq<seq<seq<PaddleLine>>>, find: string -> seq<string>): seq<string>
  {
    if pageResults == [] then []
    else PagesMatches(pageResults[..|pageResults| - 1], find) + ResultMatches(pageResults[|pageResults| - 1], find)
  }

  /** The page loop of `_extract_numbers` for a PDF: the matches of each
      page's OCR result, page by page. */
  method ProcessPages(pageResults: seq<seq<seq<PaddleLine>>>, kind: IdKind) returns (filtered: seq<string>)
    ensures filtered == PagesMatches(pageResults, Finder(kind))
  {
    filtered := [];
    var i := 0;
    while i < |pageResults|
      invariant 0 <= i <= |pageResults|
      invariant filtered == PagesMatches(pageResults[..i], Finder(kind))
    {
      assert pageResults[..i + 1][..i] == pageResults[..i];
      var found := ProcessOcrResult(pageResults[i], kind);
      filtered := filtered + found;
      i := i + 1;
    }
    assert pageResults[..|pageResults|] == pageResults;
  }

  /** `_extract_numbers` for the pattern of `kind`, with the PAN fix-up on
      exactly for PAN (as `extract_pan_numbers` passes it). An image file
      is read by OCR once, giving `imageResult`; any other file is taken
      for a PDF whose pages OCR reads one by one, giving `pageResults`. */
  method ExtractNumbers(filename: string, kind: IdKind,
                        imageResult: seq<seq<PaddleLine>>, pageResults: seq<seq<seq<PaddleLine>>>)
      returns (numbers: seq<string>)
    ensures IsImageName(filename) ==> numbers == PostProcess(ResultMatches(imageResult, Finder(kind)), kind == Pan)
    ensures !IsImageName(filename) ==> numbers == PostProcess(PagesMatches(pageResults, Finder(kind)), kind == Pan)
  {
    var filtered: seq<string> := [];
    if IsImageName(filename) {
      filtered := ProcessOcrResult(imageResult, kind);
    } else {
      filtered := ProcessPages(pageResults, kind);
    }
    filtered := Dedup(filtered);
    if kind == Pan && filtered != [] {
      filtered := seq(|filtered|, i requires 0 <= i < |filtered| => PanCorrection(filtered[i]));
    }
    if filtered == [] {
      return [];
    }
    numbers := filtered;
  }
}
