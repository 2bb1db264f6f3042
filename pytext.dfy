/** The few Python `str` operations the modelled code relies on: `isspace`,
    ASCII `isdigit`, `strip`, `split`, `split(sep)`, `join`, `lower`,
    `endswith`, `in`, `replace` with a one-character pattern, and slicing
    with a possibly negative start; and `list.index`. Strings are sequences
    of characters. */
module PyText {

  /** `str.isspace()` for one character: the ASCII whitespace and
      separator controls and the Unicode space characters. */
  predicate IsSpace(c: char)
  {
    c in SpaceChars
  }

  const SpaceChars: set<char> := {
    ' ', '\U{9}', '\U{a}', '\U{b}', '\U{c}', '\U{d}', '\U{1c}', '\U{1d}',
    '\U{1e}', '\U{1f}', '\U{85}', '\U{a0}', '\U{1680}', '\U{2000}', '\U{2001}', '\U{2002}',
    '\U{2003}', '\U{2004}', '\U{2005}', '\U{2006}', '\U{2007}', '\U{2008}', '\U{2009}', '\U{200a}',
    '\U{2028}', '\U{2029}', '\U{202f}', '\U{205f}', '\U{3000}'
  }

  /** An ASCII decimal digit (the modelled `\d`, `isdigit`, `isnumeric`). */
  predicate IsDigit(c: char)
  {
    '0' <= c <= '9'
  }

  predicate AllDigits(s: string)
  {
    forall i :: 0 <= i < |s| ==> IsDigit(s[i])
  }

  lemma AllDigitsConcat(a: string, b: string)
    ensures AllDigits(a + b) <==> AllDigits(a) && AllDigits(b)
  {
    if AllDigits(a) && AllDigits(b) {
      forall i | 0 <= i < |a + b| ensures IsDigit((a + b)[i]) {
        if i >= |a| {
          assert (a + b)[i] == b[i - |a|];
        }
      }
    }
    if AllDigits(a + b) {
      forall i | 0 <= i < |a| ensures IsDigit(a[i]) {
        assert (a + b)[i] == a[i];
      }
      forall i | 0 <= i < |b| ensures IsDigit(b[i]) {
        assert (a + b)[i + |a|] == b[i];
      }
    }
  }

  predicate HasDigit(s: string)
  {
    exists i :: 0 <= i < |s| && IsDigit(s[i])
  }

  predicate IsUpper(c: char)
  {
    'A' <= c <= 'Z'
  }

  predicate IsLetter(c: char)
  {
    'a' <= c <= 'z' || 'A' <= c <= 'Z'
  }

  predicate NoSpace(s: string)
  {
    forall i :: 0 <= i < |s| ==> !IsSpace(s[i])
  }

  /** Digits are not whitespace. */
  lemma DigitsNoSpace(s: string)
    requires AllDigits(s)
    ensures NoSpace(s)
  {
    forall i | 0 <= i < |s| ensures !IsSpace(s[i]) {
      assert IsDigit(s[i]);
    }
  }

  /** Neither end of `s` is whitespace. */
  predicate Trimmed(s: string)
  {
    s == [] || (!IsSpace(s[0]) && !IsSpace(s[|s| - 1]))
  }

  /** Number of whitespace characters at the start of `s`. */
  function LeadingSpaces(s: string): (n: nat)
    ensures n <= |s|
    ensures n < |s| ==> !IsSpace(s[n])
  {
    if s != [] && IsSpace(s[0]) then 1 + LeadingSpaces(s[1..]) else 0
  }

  /** Number of whitespace characters at the end of `s`. */
  function TrailingSpaces(s: string): (n: nat)
    ensures n <= |s|
    ensures n < |s| ==> !IsSpace(s[|s| - 1 - n])
  {
    if s != [] && IsSpace(s[|s| - 1]) then 1 + TrailingSpaces(s[..|s| - 1]) else 0
  }

  /** `s.lstrip()`: the suffix left after dropping leading whitespace. */
  function LStrip(s: string): (r: string)
    ensures r == [] || !IsSpace(r[0])
  {
    s[LeadingSpaces(s)..]
  }

  /** `s.rstrip()`: the prefix left after dropping trailing whitespace. */
  function RStrip(s: string): (r: string)
    ensures r == [] || !IsSpace(r[|r| - 1])
  {
    s[..|s| - TrailingSpaces(s)]
  }

  /** `s.strip()`: whitespace dropped from both ends. */
  function Strip(s: string): (r: string)
    ensures Trimmed(r)
  {
    LStrip(RStrip(s))
  }

  /** A string whose ends are not whitespace is left alone by `strip`. */
  lemma StripTrimmed(s: string)
    requires Trimmed(s)
    ensures Strip(s) == s
  {
    assert RStrip(s) == s;
  }

  /** `strip()` keeps a contiguous part of the input and drops only
      whitespace around it; with `Trimmed` this pins the result down. */
  lemma StripSpec(s: string)
    ensures exists i :: SurroundedBySpace(s, Strip(s), i)
  {
    var t := RStrip(s);
    var i := LeadingSpaces(t);
    var r := Strip(s);
    assert r == t[i..] && t == s[..|t|];
    assert s[i..i + |r|] == r;
    LeadingSpacesAreSpaces(t);
    TrailingSpacesAreSpaces(s);
    forall k | 0 <= k < |s| && !(i <= k < i + |r|) ensures IsSpace(s[k]) {
      if k < i {
        assert s[k] == t[k];
      }
    }
    assert SurroundedBySpace(s, r, i);
  }

  /** `r` occurs in `s` at `i`, and every character of `s` outside that
      occurrence is whitespace. */
  predicate SurroundedBySpace(s: string, r: string, i: int)
  {
    0 <= i && i + |r| <= |s| && s[i..i + |r|] == r
    && forall k :: 0 <= k < |s| && !(i <= k < i + |r|) ==> IsSpace(s[k])
  }

  lemma {:induction false} LeadingSpacesAreSpaces(s: string)
    ensures forall k :: 0 <= k < LeadingSpaces(s) ==> IsSpace(s[k])
  {
    if s != [] && IsSpace(s[0]) {
      LeadingSpacesAreSpaces(s[1..]);
      forall k | 1 <= k < LeadingSpaces(s) ensures IsSpace(s[k]) {
        assert s[k] == s[1..][k - 1];
      }
    }
  }

  lemma {:induction false} TrailingSpacesAreSpaces(s: string)
    ensures forall k :: |s| - TrailingSpaces(s) <= k < |s| ==> IsSpace(s[k])
  {
    if s != [] && IsSpace(s[|s| - 1]) {
      var u := s[..|s| - 1];
      TrailingSpacesAreSpaces(u);
      forall k | |s| - TrailingSpaces(s) <= k < |s| - 1 ensures IsSpace(s[k]) {
        assert s[k] == u[k];
      }
    }
  }

  /** A single space before a trimmed, non-empty string is stripped off. */
  lemma StripLeadingSpace(t: string)
    requires t != [] && Trimmed(t)
    ensures Strip([' '] + t) == t
  {
    var s := [' '] + t;
    assert IsSpace(' ');
    assert s[|s| - 1] == t[|t| - 1];
    assert RStrip(s) == s;
    assert s[1..] == t;
    assert LeadingSpaces(s) == 1 + LeadingSpaces(t);
  }

  /** ASCII lower-casing is idempotent. */
  lemma LowerIdempotent(s: string)
    ensures Lower(Lower(s)) == Lower(s)
  {
    forall i | 0 <= i < |s| ensures Lower(Lower(s))[i] == Lower(s)[i] {
      assert !IsUpper(Lower(s)[i]);
    }
  }

  /** Number of occurrences of `c` in `s`. */
  function CountChar(s: string, c: char): nat
  {
    if s == [] then 0 else (if s[0] == c then 1 else 0) + CountChar(s[1..], c)
  }

  /** `sep.join(parts)` for a one-character separator. */
  function Join(parts: seq<string>, sep: char): string
  {
    if parts == [] then []
    else if |parts| == 1 then parts[0]
    else parts[0] + [sep] + Join(parts[1..], sep)
  }

  /** `s.split(sep)` for a one-character separator: the pieces between the
      occurrences of `sep`, one more than there are separators. */
  function Split(s: string, sep: char): (parts: seq<string>)
    ensures |parts| == CountChar(s, sep) + 1
    ensures forall i :: 0 <= i < |parts| ==> sep !in parts[i]
    ensures Join(parts, sep) == s
  {
    if s == [] then [[]]
    else
      var rest := Split(s[1..], sep);
      assert s == [s[0]] + s[1..];
      if s[0] == sep then
        assert ([[]] + rest)[1..] == rest;
        [[]] + rest
      else
        JoinConsHead(rest, s[0], sep);
        [[s[0]] + rest[0]] + rest[1..]
  }

  /** Putting a character in front of the first part puts it in front of
      the join. */
  lemma JoinConsHead(parts: seq<string>, c: char, sep: char)
    requires parts != []
    ensures Join([[c] + parts[0]] + parts[1..], sep) == [c] + Join(parts, sep)
  {
    var q := [[c] + parts[0]] + parts[1..];
    assert q[1..] == parts[1..];
  }

  /** Splitting a join gives the parts back when no part holds the separator. */
  lemma {:induction false} SplitJoin(parts: seq<string>, sep: char)
    requires parts != []
    requires forall i :: 0 <= i < |parts| ==> sep !in parts[i]
    ensures Split(Join(parts, sep), sep) == parts
    decreases |Join(parts, sep)|
  {
    var s := Join(parts, sep);
    if parts[0] == [] {
      if |parts| > 1 {
        assert s == [sep] + Join(parts[1..], sep);
        SplitJoin(parts[1..], sep);
        assert s[1..] == Join(parts[1..], sep);
        assert parts == [[]] + parts[1..];
      }
    } else {
      var tail := [parts[0][1..]] + parts[1..];
      assert tail[0] == parts[0][1..];
      forall i | 0 <= i < |tail| ensures sep !in tail[i] {
        if i == 0 {
          assert forall k :: 0 <= k < |tail[0]| ==> tail[0][k] == parts[0][k + 1];
        }
      }
      if |parts| > 1 {
        assert s == parts[0] + [sep] + Join(parts[1..], sep);
        assert Join(tail, sep) == parts[0][1..] + [sep] + Join(parts[1..], sep);
      } else {
        assert s == parts[0];
        assert Join(tail, sep) == parts[0][1..];
      }
      assert s[1..] == Join(tail, sep);
      assert s[0] == parts[0][0] && s[0] != sep;
      SplitJoin(tail, sep);
      assert [s[0]] + tail[0] == parts[0];
      assert tail[1..] == parts[1..];
    }
  }

  /** Length of the leading run of non-whitespace characters. */
  function TokenLength(s: string): (n: nat)
    ensures n <= |s| && NoSpace(s[..n])
    ensures n < |s| ==> IsSpace(s[n])
    ensures s != [] && !IsSpace(s[0]) ==> n > 0
  {
    if s == [] || IsSpace(s[0]) then 0 else 1 + TokenLength(s[1..])
  }

  /** `s.split()`: the maximal runs of non-whitespace characters, in order. */
  function SplitWs(s: string): (tokens: seq<string>)
    ensures forall i :: 0 <= i < |tokens| ==> tokens[i] != [] && NoSpace(tokens[i])
    decreases |s|
  {
    if s == [] then []
    else if IsSpace(s[0]) then SplitWs(s[1..])
    else
      var n := TokenLength(s);
      [s[..n]] + SplitWs(s[n..])
  }

  /** The parts of a list of strings, concatenated. */
  function Flatten(parts: seq<string>): string
  {
    if parts == [] then [] else parts[0] + Flatten(parts[1..])
  }

  /** `split()` loses only whitespace: its tokens, concatenated, are the
      input with every whitespace character removed. */
  lemma {:induction false} SplitWsFlatten(s: string)
    ensures Flatten(SplitWs(s)) == RemoveSpaces(s)
    decreases |s|
  {
    if s != [] {
      if IsSpace(s[0]) {
        SplitWsFlatten(s[1..]);
      } else {
        var n := TokenLength(s);
        var tokens := [s[..n]] + SplitWs(s[n..]);
        assert tokens[1..] == SplitWs(s[n..]);
        SplitWsFlatten(s[n..]);
        RemoveSpacesNoSpace(s[..n]);
        RemoveSpacesConcat(s[..n], s[n..]);
        assert s[..n] + s[n..] == s;
      }
    }
  }

  lemma {:induction false} TokenLengthOf(t: string, rest: string)
    requires NoSpace(t)
    requires rest == [] || IsSpace(rest[0])
    ensures TokenLength(t + rest) == |t|
  {
    if t != [] {
      assert (t + rest)[1..] == t[1..] + rest;
      TokenLengthOf(t[1..], rest);
    } else {
      assert t + rest == rest;
    }
  }

  /** A leading token followed by whitespace (or nothing) is split off whole. */
  lemma SplitWsToken(t: string, rest: string)
    requires t != [] && NoSpace(t)
    requires rest == [] || IsSpace(rest[0])
    ensures SplitWs(t + rest) == [t] + SplitWs(rest)
  {
    TokenLengthOf(t, rest);
    assert (t + rest)[..|t|] == t;
    assert (t + rest)[|t|..] == rest;
  }

  /** Leading whitespace does not change the split. */
  lemma SplitWsSpace(c: char, rest: string)
    requires IsSpace(c)
    ensures SplitWs([c] + rest) == SplitWs(rest)
  {
    assert ([c] + rest)[1..] == rest;
  }

  /** A single space, then a token followed by whitespace or nothing. */
  lemma SplitWsSpaceToken(t: string, rest: string)
    requires t != [] && NoSpace(t)
    requires rest == [] || IsSpace(rest[0])
    ensures SplitWs([' '] + t + rest) == [t] + SplitWs(rest)
  {
    assert [' '] + t + rest == [' '] + (t + rest);
    SplitWsSpace(' ', t + rest);
    SplitWsToken(t, rest);
  }

  /** A single space, then a last token. */
  lemma SplitWsLastToken(t: string)
    requires t != [] && NoSpace(t)
    ensures SplitWs([' '] + t) == [t]
  {
    assert IsSpace(' ');
    SplitWsSpace(' ', t);
    assert t + [] == t;
    SplitWsToken(t, []);
  }

  /** Three tokens separated by single spaces split back into the three. */
  lemma SplitWsThree(g1: string, g2: string, g3: string)
    requires g1 != [] && g2 != [] && g3 != []
    requires NoSpace(g1) && NoSpace(g2) && NoSpace(g3)
    ensures SplitWs(g1 + ([' '] + g2 + ([' '] + g3))) == [g1, g2, g3]
  {
    var t3 := [' '] + g3;
    var t2 := [' '] + g2 + t3;
    SplitWsLastToken(g3);
    assert IsSpace(t3[0]);
    SplitWsSpaceToken(g2, t3);
    assert IsSpace(t2[0]);
    SplitWsToken(g1, t2);
  }

  /** Removing the whitespace of three tokens separated by single spaces
      concatenates them. */
  lemma RemoveSpacesThree(g1: string, g2: string, g3: string)
    requires NoSpace(g1) && NoSpace(g2) && NoSpace(g3)
    ensures RemoveSpaces(g1 + [' '] + g2 + [' '] + g3) == g1 + g2 + g3
  {
    assert RemoveSpaces([' ']) == [];
    RemoveSpacesNoSpace(g1);
    RemoveSpacesNoSpace(g2);
    RemoveSpacesNoSpace(g3);
    RemoveSpacesConcat(g1, [' ']);
    assert RemoveSpaces(g1 + [' ']) == g1;
    RemoveSpacesConcat(g1 + [' '], g2);
    assert RemoveSpaces(g1 + [' '] + g2) == g1 + g2;
    RemoveSpacesConcat(g1 + [' '] + g2, [' ']);
    assert RemoveSpaces(g1 + [' '] + g2 + [' ']) == g1 + g2;
    RemoveSpacesConcat(g1 + [' '] + g2 + [' '], g3);
  }

  /** `s.lower()` restricted to ASCII letters. */
  function LowerChar(c: char): (r: char)
    ensures IsUpper(c) ==> r as int == c as int + 32
    ensures !IsUpper(c) ==> r == c
  {
    if IsUpper(c) then (c as int + 32) as char else c
  }

  function Lower(s: string): (r: string)
    ensures |r| == |s|
    ensures forall i :: 0 <= i < |s| ==> r[i] == LowerChar(s[i])
  {
    seq(|s|, i requires 0 <= i < |s| => LowerChar(s[i]))
  }

  /** `xs.index(x)` on a list: the first position holding `x`. */
  function IndexOf<T(==)>(xs: seq<T>, x: T): (r: nat)
    requires x in xs
    ensures r < |xs| && xs[r] == x
    ensures forall k :: 0 <= k < r ==> xs[k] != x
  {
    if xs[0] == x then 0 else 1 + IndexOf(xs[1..], x)
  }

  /** `s.endswith(suffix)`. */
  predicate EndsWith(s: string, suffix: string)
  {
    |suffix| <= |s| && s[|s| - |suffix|..] == suffix
  }

  predicate OccursAt(s: string, sub: string, i: int)
  {
    0 <= i && i + |sub| <= |s| && s[i..i + |sub|] == sub
  }

  /** `sub in s` for strings: `sub` is a contiguous part of `s`. */
  predicate Contains(s: string, sub: string)
  {
    exists i :: 0 <= i <= |s| - |sub| && OccursAt(s, sub, i)
  }

  /** `s.replace(c, r)` for a one-character pattern `c`. */
  function ReplaceChar(s: string, c: char, r: string): (t: string)
    ensures c !in r ==> c !in t
    ensures forall d :: d in t ==> d in r || (d in s && d != c)
    ensures |r| == 1 ==> |t| == |s|
    ensures |r| == 1 ==> forall i :: 0 <= i < |s| ==> t[i] == (if s[i] == c then r[0] else s[i])
  {
    if s == [] then []
    else (if s[0] == c then r else [s[0]]) + ReplaceChar(s[1..], c, r)
  }

  /** Deleting a character shortens the string by its number of occurrences. */
  lemma {:induction false} DeleteCharLength(s: string, c: char)
    ensures |ReplaceChar(s, c, [])| == |s| - CountChar(s, c)
  {
    if s != [] {
      DeleteCharLength(s[1..], c);
    }
  }

  lemma {:induction false} CountCharConcat(a: string, b: string, c: char)
    ensures CountChar(a + b, c) == CountChar(a, c) + CountChar(b, c)
  {
    if a == [] {
      assert a + b == b;
    } else {
      assert (a + b)[1..] == a[1..] + b;
      CountCharConcat(a[1..], b, c);
    }
  }

  lemma {:induction false} ReplaceCharConcat(a: string, b: string, c: char, r: string)
    ensures ReplaceChar(a + b, c, r) == ReplaceChar(a, c, r) + ReplaceChar(b, c, r)
  {
    if a == [] {
      assert a + b == b;
    } else {
      assert (a + b)[1..] == a[1..] + b;
      ReplaceCharConcat(a[1..], b, c, r);
    }
  }

  /** A character occurs in `s` exactly when it is counted. */
  lemma {:induction false} CountCharZero(s: string, c: char)
    ensures CountChar(s, c) == 0 <==> c !in s
  {
    if s != [] {
      CountCharZero(s[1..], c);
      assert s == [s[0]] + s[1..];
    }
  }

  lemma ReplaceCharAbsent(s: string, c: char, r: string)
    requires c !in s
    ensures ReplaceChar(s, c, r) == s
  {
  }

  /** `re.sub(r"\s", "", s)`: every whitespace character removed. */
  function RemoveSpaces(s: string): (t: string)
    ensures NoSpace(t) && |t| <= |s|
  {
    if s == [] then []
    else (if IsSpace(s[0]) then [] else [s[0]]) + RemoveSpaces(s[1..])
  }

  lemma {:induction false} RemoveSpacesConcat(a: string, b: string)
    ensures RemoveSpaces(a + b) == RemoveSpaces(a) + RemoveSpaces(b)
  {
    if a == [] {
      assert a + b == b;
    } else {
      assert (a + b)[1..] == a[1..] + b;
      RemoveSpacesConcat(a[1..], b);
    }
  }

  lemma {:induction false} RemoveSpacesNoSpace(a: string)
    requires NoSpace(a)
    ensures RemoveSpaces(a) == a
  {
    if a != [] {
      RemoveSpacesNoSpace(a[1..]);
    }
  }

  /** `s[start:]`, where a negative `start` counts from the end and is
      clamped to the beginning, and a start past the end gives "". */
  function SliceFrom(s: string, start: int): (r: string)
    ensures |r| <= |s| && r == s[|s| - |r|..]
    ensures 0 <= start <= |s| ==> |r| == |s| - start
    ensures -|s| <= start < 0 ==> |r| == -start
    ensures start < -|s| ==> r == s
  {
    var k := if start >= 0 then (if start <= |s| then start else |s|)
             else if start + |s| >= 0 then start + |s| else 0;
    s[k..]
  }
}
