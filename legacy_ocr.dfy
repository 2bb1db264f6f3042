/** The older Aadhaar helpers: field extraction from raw OCR text
    (`aadhar_text`), the fixed-offset number heuristic `find_text` and the
    bounded frame probe `addhar_check` (`aadhar_fetch`). OCR itself is an
    input: the text of a page, or the text read from each frame. */
module LegacyOcr {

  import opened Wrappers
  import opened PyText

  // ---------------------------------------------------------------------
  // find_text
  // ---------------------------------------------------------------------

  /** A 14-character window reading exactly "dddd dddd dddd". */
  predicate GroupedWindow(w: string)
  {
    |w| == 14
    && AllDigits(w[..4]) && w[4] == ' '
    && AllDigits(w[5..9]) && w[9] == ' '
    && AllDigits(w[10..])
  }

  /** Some window `text[i-14:i]` with `14 <= i < len(text)` is grouped; the
      window ending at the last character is not among them. */
  predicate HasGroupedWindow(text: string)
  {
    exists i :: 14 <= i < |text| && GroupedWindowEndingAt(text, i)
  }

  predicate GroupedWindowEndingAt(text: string, i: int)
  {
    14 <= i <= |text| && GroupedWindow(text[i - 14..i])
  }

  /** The test `find_text` applies to one window: spaces at offsets 4 and 9;
      then, with every space removed, the last 12 characters (a negative
      slice start counts from the end) are numeric and there are 12 of them. */
  predicate WindowTest(s: string)
    requires |s| == 14
  {
    s[4] == ' ' && s[9] == ' '
    && var t := ReplaceChar(s, ' ', []);
       var s1 := SliceFrom(t, |t| - 12);
       s1 != [] && AllDigits(s1) && |s1| >= 12
  }

  /** Deleting the spaces of `a + " " + b + " " + c` deletes those of the
      three parts. */
  lemma DeleteSeparatedSpaces(a: string, b: string, c: string)
    ensures ReplaceChar(a + [' '] + b + [' '] + c, ' ', [])
      == ReplaceChar(a, ' ', []) + ReplaceChar(b, ' ', []) + ReplaceChar(c, ' ', [])
  {
    var sp := [' '];
    assert ReplaceChar(sp, ' ', []) == [];
    var ra, rb, rc := ReplaceChar(a, ' ', []), ReplaceChar(b, ' ', []), ReplaceChar(c, ' ', []);
    ReplaceCharConcat(a, sp, ' ', []);
    assert ReplaceChar(a + sp, ' ', []) == ra;
    ReplaceCharConcat(a + sp, b, ' ', []);
    assert ReplaceChar(a + sp + b, ' ', []) == ra + rb;
    ReplaceCharConcat(a + sp + b, sp, ' ', []);
    assert ReplaceChar(a + sp + b + sp, ' ', []) == ra + rb;
    ReplaceCharConcat(a + sp + b + sp, c, ' ', []);
  }

  /** The spaces of `a + " " + b + " " + c` are those of the three parts
      and the two separators. */
  lemma CountSeparatedSpaces(a: string, b: string, c: string)
    ensures CountChar(a + [' '] + b + [' '] + c, ' ')
      == CountChar(a, ' ') + CountChar(b, ' ') + CountChar(c, ' ') + 2
  {
    var sp := [' '];
    assert CountChar(sp, ' ') == 1;
    CountCharConcat(a, sp, ' ');
    CountCharConcat(a + sp, b, ' ');
    CountCharConcat(a + sp + b, sp, ' ');
    CountCharConcat(a + sp + b + sp, c, ' ');
  }

  /** The step-by-step window test accepts exactly the grouped windows. */
  lemma WindowTestIff(s: string)
    requires |s| == 14
    ensures WindowTest(s) <==> GroupedWindow(s)
  {
    if s[4] == ' ' && s[9] == ' ' {
      var a, b, c := s[..4], s[5..9], s[10..];
      assert s == a + [' '] + b + [' '] + c;
      if WindowTest(s) {
        WindowTestPartsNoSpace(a, b, c);
      }
      if GroupedWindow(s) {
        assert ' ' !in a && ' ' !in b && ' ' !in c;
      }
      if ' ' !in a && ' ' !in b && ' ' !in c {
        WindowTestSpaceFree(a, b, c);
      }
    }
  }

  /** A window the test accepts has no space inside its three parts: the
      twelve characters left after deleting spaces are all of them. */
  lemma WindowTestPartsNoSpace(a: string, b: string, c: string)
    requires |a| == 4 && |b| == 4 && |c| == 4
    requires WindowTest(a + [' '] + b + [' '] + c)
    ensures ' ' !in a && ' ' !in b && ' ' !in c
  {
    var s := a + [' '] + b + [' '] + c;
    var t := ReplaceChar(s, ' ', []);
    CountSeparatedSpaces(a, b, c);
    DeleteCharLength(s, ' ');
    assert |t| == 12;
    CountCharZero(a, ' ');
    CountCharZero(b, ' ');
    CountCharZero(c, ' ');
  }

  /** With no space inside the parts, the test reduces to the parts being
      all digits. */
  lemma WindowTestSpaceFree(a: string, b: string, c: string)
    requires |a| == 4 && |b| == 4 && |c| == 4
    requires ' ' !in a && ' ' !in b && ' ' !in c
    ensures WindowTest(a + [' '] + b + [' '] + c) <==> GroupedWindow(a + [' '] + b + [' '] + c)
  {
    var s := a + [' '] + b + [' '] + c;
    assert s[..4] == a && s[5..9] == b && s[10..] == c;
    var t := ReplaceChar(s, ' ', []);
    DeleteSeparatedSpaces(a, b, c);
    ReplaceCharAbsent(a, ' ', []);
    ReplaceCharAbsent(b, ' ', []);
    ReplaceCharAbsent(c, ' ', []);
    assert t == a + b + c;
    assert SliceFrom(t, |t| - 12) == t;
    AllDigitsConcat(a + b, c);
    AllDigitsConcat(a, b);
  }

  /** `aadhar_fetch.find_text`: 1 when some examined window is grouped,
      else 0. Texts of at most 14 characters are never accepted, and a
      number that ends the text is missed. */
  method FindText(text: string) returns (v: int)
    ensures v == 0 || v == 1
    ensures v == 1 <==> HasGroupedWindow(text)
    ensures |text| <= 14 ==> v == 0
  {
    var n := |text|;
    if n < 12 {
      return 0;
    }
    var i := 14;
    while i < n
      invariant 14 <= i
      invariant forall k :: 14 <= k < i && k < n ==> !GroupedWindowEndingAt(text, k)
    {
      var s := text[i - 14..i];
      assert GroupedWindowEndingAt(text, i) <==> WindowTest(s) by {
        WindowTestIff(s);
      }
      if WindowTest(s) {
        return 1;
      }
      i := i + 1;
    }
    return 0;
  }

  /** Three digit groups of four joined by single spaces form a grouped
      window. */
  lemma GroupsFormWindow(a: string, b: string, c: string)
    requires |a| == 4 && |b| == 4 && |c| == 4
    requires AllDigits(a) && AllDigits(b) && AllDigits(c)
    ensures GroupedWindow(a + [' '] + b + [' '] + c)
  {
    var w := a + [' '] + b + [' '] + c;
    assert w[..4] == a && w[5..9] == b && w[10..] == c;
  }

  /** A number that closes the text is not found: the window ending at the
      last character is never examined. */
  lemma TrailingNumberMissed()
    ensures !HasGroupedWindow("No 1234 5678 9012")
  {
    var t := "No 1234 5678 9012";
    assert |t| == 17 && t[4] != ' ' && t[5] != ' ' && t[6] != ' ';
    forall i | 14 <= i < |t| ensures !GroupedWindowEndingAt(t, i) {
      WindowSeparatorAt(t, i);
    }
  }

  /** A grouped window ending at `i` has its first separator at `i - 10`. */
  lemma WindowSeparatorAt(text: string, i: int)
    requires 14 <= i <= |text|
    ensures GroupedWindowEndingAt(text, i) ==> text[i - 10] == ' '
  {
    assert text[i - 14..i][4] == text[i - 10];
  }

  /** The same text with one more character after the number is accepted. */
  lemma NumberBeforeNewlineFound()
    ensures HasGroupedWindow("No 1234 5678 9012\n")
  {
    var u := "No 1234 5678 9012\n";
    var a, b, c := "1234", "5678", "9012";
    assert AllDigits(a) && AllDigits(b) && AllDigits(c);
    GroupsFormWindow(a, b, c);
    assert u[3..17] == a + [' '] + b + [' '] + c;
    assert GroupedWindowEndingAt(u, 17);
  }

  // ---------------------------------------------------------------------
  // addhar_check
  // ---------------------------------------------------------------------

  /** The frame cap of `addhar_check`. */
  const MaxFrames := 25

  /** Frame `i` is recognised: `find_text` accepts the OCR text of the raw
      frame or, failing that, of its blurred copy. */
  predicate FrameHit(rawText: nat -> string, blurredText: nat -> string, i: nat)
  {
    HasGroupedWindow(rawText(i)) || HasGroupedWindow(blurredText(i))
  }

  function FrameHits(rawText: nat -> string, blurredText: nat -> string): nat -> bool
  {
    (i: nat) => FrameHit(rawText, blurredText, i)
  }

  /** The value of `u` when the probe starts at frame `i`, where `hit(j)`
      says whether frame `j` is recognised. */
  function ProbeFrom(frameCount: nat, hit: nat -> bool, i: nat): nat
    requires i <= MaxFrames
    decreases MaxFrames - i
  {
    if i == MaxFrames then MaxFrames
    else if i >= frameCount then 0
    else if hit(i) then i + 1
    else ProbeFrom(frameCount, hit, i + 1)
  }

  /** What the probe reports from frame `i` on: 0 when the frames run out
      first, the 1-based index of the first recognised frame, or the cap
      when the first 24 frames fail, whatever the 25th gives. */
  lemma {:induction false} ProbeFromSpec(frameCount: nat, hit: nat -> bool, i: nat)
    requires i <= MaxFrames && i <= frameCount
    ensures var u := ProbeFrom(frameCount, hit, i);
      && (u == 0 || i < u <= MaxFrames || u == i == MaxFrames)
      && (u == 0 <==> frameCount < MaxFrames && forall j :: i <= j < frameCount ==> !hit(j))
      && (0 < u ==> u <= frameCount && forall j :: i <= j < u - 1 ==> !hit(j))
      && (0 < u < MaxFrames ==> hit(u - 1))
      && (u == MaxFrames <==> MaxFrames <= frameCount && forall j :: i <= j < MaxFrames - 1 ==> !hit(j))
    decreases MaxFrames - i
  {
    if i < MaxFrames && i < frameCount && !hit(i) {
      ProbeFromSpec(frameCount, hit, i + 1);
    }
  }

  /** `aadhar_fetch.addhar_check` after opening the image: seeking frame
      `i` fails with EOFError once `i >= frameCount`, and `rawText(i)` and
      `blurredText(i)` are what OCR reads from frame `i` and from its
      blurred copy. */
  method AddharCheck(frameCount: nat, rawText: nat -> string, blurredText: nat -> string) returns (u: nat)
    ensures u == ProbeFrom(frameCount, FrameHits(rawText, blurredText), 0)
  {
    ghost var hit := FrameHits(rawText, blurredText);
    u := 0;
    var i := 0;
    while i < MaxFrames
      invariant 0 <= i <= MaxFrames && u == i
      invariant ProbeFrom(frameCount, hit, 0) == ProbeFrom(frameCount, hit, i)
    {
      if i >= frameCount {
        u := 0;
        return;
      }
      u := u + 1;
      var text := rawText(i);
      var v := FindText(text);
      if v == 1 {
        assert hit(i) by {
          assert FrameHit(rawText, blurredText, i);
        }
        return;
      }
      text := blurredText(i);
      v := FindText(text);
      if v == 1 {
        assert hit(i) by {
          assert FrameHit(rawText, blurredText, i);
        }
        return;
      }
      assert !hit(i) by {
        assert !FrameHit(rawText, blurredText, i);
      }
      i := i + 1;
    }
  }

  // ---------------------------------------------------------------------
  // aadhar_text.adhaar_read_data
  // ---------------------------------------------------------------------

  /** The dictionary `adhaar_read_data` returns. */
  datatype AadhaarData = AadhaarData(
    name: Option<string>,
    dateOfBirth: Option<string>,
    number: Option<string>,
    sex: string,
    idType: string)

  /** The line texts after the per-line clean-up: every line of
      `text.split('\n')` stripped at both ends. */
  function CleanLines(text: string): (r: seq<string>)
    ensures |r| == |Split(text, '\n')|
  {
    var lines := Split(text, '\n');
    seq(|lines|, k requires 0 <= k < |lines| => Strip(lines[k]))
  }

  /** `list(filter(None, lines))`: the non-empty lines, in order. */
  function NonBlank(lines: seq<string>): (r: seq<string>)
    ensures |r| <= |lines|
    ensures forall k :: 0 <= k < |r| ==> r[k] != [] && r[k] in lines
  {
    if lines == [] then []
    else (if lines[0] == [] then [] else [lines[0]]) + NonBlank(lines[1..])
  }

  /** The first non-blank line is the first entry of the filtered list, and
      the second non-blank line is its second entry. */
  lemma {:induction false} NonBlankAt(lines: seq<string>, k: nat, m: nat)
    requires k < |lines| && lines[k] != []
    requires m == |NonBlank(lines[..k])|
    ensures m < |NonBlank(lines)| && NonBlank(lines)[m] == lines[k]
    decreases k
  {
    if k == 0 {
      assert lines[..0] == [];
    } else {
      assert lines[1..][..k - 1] == lines[..k][1..];
      NonBlankAt(lines[1..], k - 1, |NonBlank(lines[..k][1..])|);
    }
  }

  /** `[^a-zA-Z]+` replaced by one space: letters kept, every run of other
      characters collapsed to a single space. */
  function CollapseNonLetters(s: string): (r: string)
    ensures |r| <= |s|
    ensures forall i :: 0 <= i < |r| ==> IsLetter(r[i]) || r[i] == ' '
    ensures forall i :: 0 <= i < |r| - 1 && r[i] == ' ' ==> r[i + 1] != ' '
    ensures s != [] && IsLetter(s[0]) ==> r != [] && r[0] == s[0]
    ensures s != [] ==> r != []
    ensures Letters(r) == Letters(s)
    decreases |s|
  {
    if s == [] then []
    else if IsLetter(s[0]) then [s[0]] + CollapseNonLetters(s[1..])
    else
      var n := NonLetterRun(s);
      LettersAfterRun(s, n);
      [' '] + CollapseNonLetters(s[n..])
  }

  /** Length of the leading run of non-letters. */
  function NonLetterRun(s: string): (n: nat)
    ensures n <= |s|
    ensures forall i :: 0 <= i < n ==> !IsLetter(s[i])
    ensures n < |s| ==> IsLetter(s[n])
    ensures s != [] && !IsLetter(s[0]) ==> n > 0
  {
    if s == [] || IsLetter(s[0]) then 0 else 1 + NonLetterRun(s[1..])
  }

  /** The letters of `s`, in order. */
  function Letters(s: string): (r: string)
    ensures forall i :: 0 <= i < |r| ==> IsLetter(r[i])
  {
    if s == [] then [] else (if IsLetter(s[0]) then [s[0]] else []) + Letters(s[1..])
  }

  lemma {:induction false} LettersAfterRun(s: string, n: nat)
    requires n <= |s|
    requires forall i :: 0 <= i < n ==> !IsLetter(s[i])
    ensures Letters(s) == Letters(s[n..])
  {
    if n > 0 {
      LettersAfterRun(s[1..], n - 1);
      assert s[1..][n - 1..] == s[n..];
    }
  }

  /** Reference reading of `re.sub('[^a-zA-Z]+', ' ', s)`, one character
      at a time: a letter is kept; a non-letter becomes a space when it
      starts a run (at the start of `s` or after a letter) and vanishes
      when it continues one. `inRun` says whether the character before `s`
      was a non-letter. */
  function CollapseByChar(s: string, inRun: bool): string
  {
    if s == [] then []
    else if IsLetter(s[0]) then [s[0]] + CollapseByChar(s[1..], false)
    else (if inRun then [] else [' ']) + CollapseByChar(s[1..], true)
  }

  /** The run-by-run substitution agrees with the character-by-character
      reference. */
  lemma {:induction false} CollapseNonLettersByChar(s: string)
    ensures CollapseNonLetters(s) == CollapseByChar(s, false)
    decreases |s|
  {
    if s != [] {
      if IsLetter(s[0]) {
        CollapseNonLettersByChar(s[1..]);
      } else {
        var n := NonLetterRun(s);
        CollapseNonLettersByChar(s[n..]);
        CollapseSkipsRun(s[1..], n - 1);
        assert s[1..][n - 1..] == s[n..];
        CollapseAfterRunStart(s[n..]);
      }
    }
  }

  /** Inside a run, the non-letters that continue it add nothing. */
  lemma {:induction false} CollapseSkipsRun(s: string, m: nat)
    requires m <= |s|
    requires forall i :: 0 <= i < m ==> !IsLetter(s[i])
    ensures CollapseByChar(s, true) == CollapseByChar(s[m..], true)
  {
    if m > 0 {
      CollapseSkipsRun(s[1..], m - 1);
      assert s[1..][m - 1..] == s[m..];
    }
  }

  /** Where a letter follows (or nothing does), it does not matter whether a
      run came before. */
  lemma CollapseAfterRunStart(s: string)
    requires s == [] || IsLetter(s[0])
    ensures CollapseByChar(s, true) == CollapseByChar(s, false)
  {
  }

  /** The digits OCR confuses with letters read back as those letters. */
  function ConfusedChar(c: char): char
  {
    if c == '8' then 'B'
    else if c == '0' then 'D'
    else if c == '6' then 'G'
    else if c == '1' then 'I'
    else c
  }

  /** The name: the line stripped, the digits OCR confuses with letters
      mapped back (8 to B, 0 to D, 6 to G, 1 to I), and every run of
      non-letters turned into one space. */
  function CleanName(line: string): (r: string)
    ensures forall i :: 0 <= i < |r| ==> IsLetter(r[i]) || r[i] == ' '
    ensures forall i :: 0 <= i < |r| - 1 && r[i] == ' ' ==> r[i + 1] != ' '
    ensures Letters(r) == Letters(MapConfusedDigits(Strip(line)))
    ensures r == CollapseByChar(MapConfusedDigits(Strip(line)), false)
  {
    CollapseNonLettersByChar(MapConfusedDigits(Strip(line)));
    CollapseNonLetters(MapConfusedDigits(Strip(line)))
  }

  /** The four `replace` calls: each character mapped by `ConfusedChar`. */
  function MapConfusedDigits(s: string): (r: string)
    ensures |r| == |s|
    ensures forall i :: 0 <= i < |s| ==> r[i] == ConfusedChar(s[i])
  {
    var s1 := ReplaceChar(s, '8', "B");
    var s2 := ReplaceChar(s1, '0', "D");
    var s3 := ReplaceChar(s2, '6', "G");
    assert "B"[0] == 'B' && "D"[0] == 'D' && "G"[0] == 'G' && "I"[0] == 'I';
    ReplaceChar(s3, '1', "I")
  }

  /** The date of birth: the last ten characters of the line, stripped,
      then rewritten by `DobRewrite`. */
  function CleanDob(line: string): (r: string)
    ensures r == DobByChar(Strip(SliceFrom(line, -10)))
  {
    DobRewriteByChar(Strip(SliceFrom(line, -10)));
    DobRewrite(Strip(SliceFrom(line, -10)))
  }

  /** The eight `replace` calls in order: l, L, I, i and | read as '/', a
      double quote as "/1", and colons and spaces removed. */
  function DobRewrite(d: string): string
  {
    var d1 := ReplaceChar(ReplaceChar(ReplaceChar(ReplaceChar(ReplaceChar(d, 'l', "/"), 'L', "/"), 'I', "/"), 'i', "/"), '|', "/");
    ReplaceChar(ReplaceChar(ReplaceChar(d1, '"', "/1"), ':', []), ' ', [])
  }

  /** Reference reading of the rewrite, one character at a time. */
  function DobChar(c: char): string
  {
    if c == 'l' || c == 'L' || c == 'I' || c == 'i' || c == '|' then "/"
    else if c == '"' then "/1"
    else if c == ':' || c == ' ' then []
    else [c]
  }

  function DobByChar(d: string): string
  {
    if d == [] then [] else DobChar(d[0]) + DobByChar(d[1..])
  }

  /** The eight passes amount to one pass of `DobChar`: no pass rewrites
      what an earlier pass produced. */
  lemma {:induction false} DobRewriteByChar(d: string)
    ensures DobRewrite(d) == DobByChar(d)
  {
    if d != [] {
      assert d == [d[0]] + d[1..];
      DobRewriteConcat([d[0]], d[1..]);
      DobRewriteChar(d[0]);
      DobRewriteByChar(d[1..]);
    }
  }

  lemma DobRewriteConcat(a: string, b: string)
    ensures DobRewrite(a + b) == DobRewrite(a) + DobRewrite(b)
  {
    var s1, t1 := ReplaceChar(a, 'l', "/"), ReplaceChar(b, 'l', "/");
    ReplaceCharConcat(a, b, 'l', "/");
    var s2, t2 := ReplaceChar(s1, 'L', "/"), ReplaceChar(t1, 'L', "/");
    ReplaceCharConcat(s1, t1, 'L', "/");
    var s3, t3 := ReplaceChar(s2, 'I', "/"), ReplaceChar(t2, 'I', "/");
    ReplaceCharConcat(s2, t2, 'I', "/");
    var s4, t4 := ReplaceChar(s3, 'i', "/"), ReplaceChar(t3, 'i', "/");
    ReplaceCharConcat(s3, t3, 'i', "/");
    var s5, t5 := ReplaceChar(s4, '|', "/"), ReplaceChar(t4, '|', "/");
    ReplaceCharConcat(s4, t4, '|', "/");
    var s6, t6 := ReplaceChar(s5, '"', "/1"), ReplaceChar(t5, '"', "/1");
    ReplaceCharConcat(s5, t5, '"', "/1");
    var s7, t7 := ReplaceChar(s6, ':', []), ReplaceChar(t6, ':', []);
    ReplaceCharConcat(s6, t6, ':', []);
    ReplaceCharConcat(s7, t7, ' ', []);
  }

  lemma DobRewriteChar(c: char)
    ensures DobRewrite([c]) == DobChar(c)
  {
    var s0 := [c];
    var s1 := ReplaceChar(s0, 'l', "/");
    var s2 := ReplaceChar(s1, 'L', "/");
    var s3 := ReplaceChar(s2, 'I', "/");
    var s4 := ReplaceChar(s3, 'i', "/");
    var s5 := ReplaceChar(s4, '|', "/");
    var s6 := ReplaceChar(s5, '"', "/1");
    var s7 := ReplaceChar(s6, ':', []);
    var s8 := ReplaceChar(s7, ' ', []);
    assert DobRewrite([c]) == s8;
    DobPass(s0, 'l', "/");
    DobPass(s1, 'L', "/");
    DobPass(s2, 'I', "/");
    DobPass(s3, 'i', "/");
    DobPass(s4, '|', "/");
    DobPass(s5, '"', "/1");
    DobPass(s6, ':', []);
    DobPass(s7, ' ', []);
  }

  /** One pass on a string of at most two characters: a single character
      equal to the pattern is replaced, and "/" or "/1" or a single other
      character is left alone. */
  lemma DobPass(s: string, x: char, r: string)
    requires |s| <= 2
    ensures |s| == 1 ==> ReplaceChar(s, x, r) == if s[0] == x then r else s
    ensures x != '/' && x != '1' && s == "/1" ==> ReplaceChar(s, x, r) == s
  {
    if |s| == 1 {
      ReplaceCharOne(s[0], x, r);
      assert s == [s[0]];
    }
    if x != '/' && x != '1' && s == "/1" {
      ReplaceCharAbsent(s, x, r);
    }
  }

  lemma ReplaceCharOne(c: char, x: char, r: string)
    ensures ReplaceChar([c], x, r) == if c == x then r else [c]
  {
    assert [c][1..] == [];
  }

  /** No character the clean-up rewrites survives it. */
  lemma CleanDobRewritesAll(line: string)
    ensures var r := CleanDob(line);
      'l' !in r && 'L' !in r && 'I' !in r && 'i' !in r && '|' !in r
      && '"' !in r && ':' !in r && ' ' !in r
  {
    DobByCharClean(Strip(SliceFrom(line, -10)));
  }

  /** A character the DOB clean-up rewrites. */
  predicate DobRewritten(c: char)
  {
    c == 'l' || c == 'L' || c == 'I' || c == 'i' || c == '|' || c == '"' || c == ':' || c == ' '
  }

  lemma {:induction false} DobByCharClean(d: string)
    ensures forall c :: c in DobByChar(d) ==> !DobRewritten(c)
  {
    if d != [] {
      DobByCharClean(d[1..]);
      assert forall c :: c in DobChar(d[0]) ==> !DobRewritten(c);
    }
  }

  /** Only digits and slashes: a date as printed on the card. */
  predicate DateChars(s: string)
  {
    forall i :: 0 <= i < |s| ==> IsDigit(s[i]) || s[i] == '/'
  }

  lemma DateCharNotSpace(c: char)
    requires IsDigit(c) || c == '/'
    ensures !IsSpace(c)
  {
  }

  /** Rewriting a character that is neither a digit nor '/' leaves a date
      untouched. */
  lemma DateCharsUnchanged(s: string, c: char, r: string)
    requires DateChars(s) && !IsDigit(c) && c != '/'
    ensures ReplaceChar(s, c, r) == s
  {
    assert c !in s;
    ReplaceCharAbsent(s, c, r);
  }

  /** A date already read cleanly comes back as its last ten characters. */
  lemma CleanDobKeepsCleanDate(line: string)
    requires DateChars(line)
    ensures CleanDob(line) == SliceFrom(line, -10)
  {
    var d := SliceFrom(line, -10);
    assert DateChars(d) by {
      assert forall i :: 0 <= i < |d| ==> d[i] == line[|line| - |d| + i];
    }
    assert Strip(d) == d by {
      if d != [] {
        DateCharNotSpace(d[0]);
        DateCharNotSpace(d[|d| - 1]);
      }
      StripTrimmed(d);
    }
    assert ReplaceChar(d, 'l', "/") == d by { DateCharsUnchanged(d, 'l', "/"); }
    assert ReplaceChar(d, 'L', "/") == d by { DateCharsUnchanged(d, 'L', "/"); }
    assert ReplaceChar(d, 'I', "/") == d by { DateCharsUnchanged(d, 'I', "/"); }
    assert ReplaceChar(d, 'i', "/") == d by { DateCharsUnchanged(d, 'i', "/"); }
    assert ReplaceChar(d, '|', "/") == d by { DateCharsUnchanged(d, '|', "/"); }
    assert ReplaceChar(d, '"', "/1") == d by { DateCharsUnchanged(d, '"', "/1"); }
    assert ReplaceChar(d, ':', []) == d by { DateCharsUnchanged(d, ':', []); }
    assert ReplaceChar(d, ' ', []) == d by { DateCharsUnchanged(d, ' ', []); }
  }

  /** A token counted as a number group: four characters, all digits. */
  predicate IsGroup(word: string)
  {
    |word| == 4 && AllDigits(word)
  }

  /** The number field: every group among `words`, in order, each followed
      by one space. */
  function FourDigitGroups(words: seq<string>): string
  {
    if words == [] then [] else GroupText(words[0]) + FourDigitGroups(words[1..])
  }

  /** What one token adds to the number field. */
  function GroupText(word: string): string
  {
    if IsGroup(word) then word + " " else []
  }

  /** The tokens that are number groups, in order. */
  function GroupsOf(words: seq<string>): (r: seq<string>)
    ensures forall k :: 0 <= k < |r| ==> IsGroup(r[k])
  {
    if words == [] then []
    else (if IsGroup(words[0]) then [words[0]] else []) + GroupsOf(words[1..])
  }

  lemma {:induction false} FourDigitGroupsSnoc(words: seq<string>, w: string)
    ensures FourDigitGroups(words + [w]) == FourDigitGroups(words) + GroupText(w)
  {
    if words == [] {
      assert words + [w] == [w];
      assert [w][1..] == [];
    } else {
      calc {
        FourDigitGroups(words + [w]);
        == { assert (words + [w])[0] == words[0];
             assert (words + [w])[1..] == words[1..] + [w]; }
        GroupText(words[0]) + FourDigitGroups(words[1..] + [w]);
        == { FourDigitGroupsSnoc(words[1..], w); }
        GroupText(words[0]) + (FourDigitGroups(words[1..]) + GroupText(w));
        ==
        (GroupText(words[0]) + FourDigitGroups(words[1..])) + GroupText(w);
        ==
        FourDigitGroups(words) + GroupText(w);
      }
    }
  }

  /** Splitting the number field on whitespace gives back the groups. */
  lemma {:induction false} FourDigitGroupsSplit(words: seq<string>)
    ensures SplitWs(FourDigitGroups(words)) == GroupsOf(words)
  {
    if words != [] {
      var w := words[0];
      var rest := FourDigitGroups(words[1..]);
      FourDigitGroupsSplit(words[1..]);
      if IsGroup(w) {
        assert FourDigitGroups(words) == w + ([' '] + rest);
        GroupThenField(w, rest);
        assert GroupsOf(words) == [w] + GroupsOf(words[1..]);
      } else {
        assert FourDigitGroups(words) == rest;
      }
    }
  }

  /** A group followed by a space and the rest of the field splits into the
      group and the split of the rest. */
  lemma GroupThenField(w: string, rest: string)
    requires IsGroup(w)
    ensures SplitWs(w + ([' '] + rest)) == [w] + SplitWs(rest)
  {
    DigitsNoSpace(w);
    assert IsSpace(([' '] + rest)[0]);
    SplitWsToken(w, [' '] + rest);
    SplitWsSpace(' ', rest);
  }

  /** The first loop of `adhaar_read_data`: each line of
      `text.split('\n')` with newlines removed and both ends stripped. */
  method StripLines(text: string) returns (text1: seq<string>)
    ensures text1 == CleanLines(text)
  {
    var lines := Split(text, '\n');
    text1 := [];
    var i := 0;
    while i < |lines|
      invariant 0 <= i <= |lines|
      invariant text1 == CleanLines(text)[..i]
    {
      var lin := lines[i];
      var s := ReplaceChar(lin, '\n', []);
      s := RStrip(s);
      s := LStrip(s);
      assert s == CleanLines(text)[i] by {
        ReplaceCharAbsent(lin, '\n', []);
      }
      text1 := text1 + [s];
      i := i + 1;
    }
    assert CleanLines(text)[..|lines|] == CleanLines(text);
  }

  /** The number loop of `adhaar_read_data`: every four-digit token,
      followed by a space, in order. */
  method CollectGroups(res: seq<string>) returns (number: string)
    ensures number == FourDigitGroups(res)
  {
    number := "";
    var j := 0;
    while j < |res|
      invariant 0 <= j <= |res|
      invariant number == FourDigitGroups(res[..j])
    {
      FourDigitGroupsSnoc(res[..j], res[j]);
      assert res[..j + 1] == res[..j] + [res[j]];
      var word := res[j];
      if |word| == 4 && AllDigits(word) {
        number := number + word + " ";
      }
      j := j + 1;
    }
    assert res[..|res|] == res;
  }

  /** `aadhar_text(text).adhaar_read_data()`. An IndexError on the first
      or the second non-blank line ends the `try` block early, leaving the
      remaining fields None. */
  method AdhaarReadData(text: string) returns (d: AadhaarData)
    ensures d.sex == (if Contains(Lower(text), "female") then "FEMALE" else "MALE")
    ensures d.idType == "Adhaar"
    ensures var ls := NonBlank(CleanLines(text));
      && d.name == (if |ls| >= 1 then Some(CleanName(ls[0])) else None)
      && d.dateOfBirth == (if |ls| >= 2 then Some(CleanDob(ls[1])) else None)
      && d.number == (if |ls| >= 2 then Some(FourDigitGroups(SplitWs(text))) else None)
  {
    var res := SplitWs(text);
    var name: Option<string> := None;
    var dob: Option<string> := None;
    var adh: Option<string> := None;
    var sex: string;
    var text1 := StripLines(text);
    if Contains(Lower(text), "female") {
      sex := "FEMALE";
    } else {
      sex := "MALE";
    }
    var text0 := NonBlank(text1);
    if |text0| >= 1 {
      name := Some(CleanName(text0[0]));
      if |text0| >= 2 {
        dob := Some(CleanDob(text0[1]));
        var number := CollectGroups(res);
        adh := Some(number);
      }
    }
    d := AadhaarData(name, dob, adh, sex, "Adhaar");
  }

  /** The sex field reads "FEMALE" for any capitalisation of the word. */
  lemma FemaleAnyCase()
    ensures Contains(Lower("Sex: FEMALE"), "female")
  {
    assert Lower("Sex: FEMALE")[5..11] == "female";
    assert OccursAt(Lower("Sex: FEMALE"), "female", 5);
  }

  // ---------------------------------------------------------------------
  // aadhar_text.findword
  // ---------------------------------------------------------------------

  /** Some whitespace-separated word of the line satisfies `matches`
      (`re.search(wordstring, w)`). */
  predicate LineMatches(line: string, matches: string -> bool)
  {
    var words := SplitWs(line);
    exists j :: 0 <= j < |words| && matches(words[j])
  }

  /** The first line holding a matching word. */
  function FirstMatchingLine(lines: seq<string>, matches: string -> bool): (r: Option<nat>)
    ensures r.Some? ==> r.value < |lines| && LineMatches(lines[r.value], matches)
    ensures r.Some? ==> forall k :: 0 <= k < r.value ==> !LineMatches(lines[k], matches)
    ensures r.None? ==> forall k :: 0 <= k < |lines| ==> !LineMatches(lines[k], matches)
  {
    if lines == [] then None
    else if LineMatches(lines[0], matches) then Some(0)
    else match FirstMatchingLine(lines[1..], matches)
      case None => None
      case Some(k) => Some(k + 1)
  }

  /** `aadhar_text.findword`: the lines after the first one holding a
      matching word, or all of them when none does. */
  method FindWord(textlist: seq<string>, matches: string -> bool) returns (r: seq<string>)
    ensures FirstMatchingLine(textlist, matches).None? ==> r == textlist
    ensures FirstMatchingLine(textlist, matches).Some? ==>
      r == textlist[FirstMatchingLine(textlist, matches).value + 1..]
  {
    var i := 0;
    while i < |textlist|
      invariant 0 <= i <= |textlist|
      invariant forall k :: 0 <= k < i ==> !LineMatches(textlist[k], matches)
    {
      var wordline := textlist[i];
      var xx := SplitWs(wordline);
      if exists j :: 0 <= j < |xx| && matches(xx[j]) {
        var lineno := IndexOf(textlist, wordline);
        assert lineno == i;
        return textlist[lineno + 1..];
      }
      i := i + 1;
    }
    return textlist;
  }
}
