/** The Verhoeff check-digit scheme used to validate a 12-digit Aadhaar
    number: a right-to-left fold over the dihedral group D5, using a fixed
    multiplication table and a table of eight digit permutations. */
module Verhoeff {

  import opened PyText

  type Digit = x: int | 0 <= x < 10

  /** Multiplication table of D5, indexed [running checksum][permuted digit]. */
  const MultiplicationTable: seq<seq<int>> := [
    [0, 1, 2, 3, 4, 5, 6, 7, 8, 9],
    [1, 2, 3, 4, 0, 6, 7, 8, 9, 5],
    [2, 3, 4, 0, 1, 7, 8, 9, 5, 6],
    [3, 4, 0, 1, 2, 8, 9, 5, 6, 7],
    [4, 0, 1, 2, 3, 9, 5, 6, 7, 8],
    [5, 9, 8, 7, 6, 0, 4, 3, 2, 1],
    [6, 5, 9, 8, 7, 1, 0, 4, 3, 2],
    [7, 6, 5, 9, 8, 2, 1, 0, 4, 3],
    [8, 7, 6, 5, 9, 3, 2, 1, 0, 4],
    [9, 8, 7, 6, 5, 4, 3, 2, 1, 0]
  ]

  /** Permutation table, indexed [position mod 8][digit]. */
  const PermutationTable: seq<seq<int>> := [
    [0, 1, 2, 3, 4, 5, 6, 7, 8, 9],
    [1, 5, 7, 6, 2, 8, 3, 0, 9, 4],
    [5, 8, 0, 3, 7, 9, 6, 1, 4, 2],
    [8, 9, 1, 6, 0, 4, 3, 5, 2, 7],
    [9, 4, 5, 3, 1, 2, 6, 8, 7, 0],
    [4, 2, 8, 6, 5, 7, 3, 9, 0, 1],
    [2, 7, 9, 3, 8, 0, 6, 4, 1, 5],
    [7, 0, 4, 6, 9, 1, 3, 2, 5, 8]
  ]

  /** Table lookup `mult[c][p]`; every entry of the table is a digit. */
  function Mult(c: Digit, p: Digit): (r: int)
    ensures 0 <= r < 10
  {
    MultiplicationTable[c][p]
  }

  /** Table lookup `perm[i][n]`; every entry of the table is a digit. */
  function Perm(i: int, n: Digit): (r: int)
    requires 0 <= i < 8
    ensures 0 <= r < 10
  {
    PermutationTable[i][n]
  }

  /** The inverse of each element of D5 under Mult (rotations 1..4 invert to
      4..1, every reflection 5..9 is its own inverse). */
  function Inverse(c: Digit): Digit
  {
    [0, 4, 3, 2, 1, 5, 6, 7, 8, 9][c]
  }

  lemma MultLeftInverse(c: Digit, x: Digit)
    ensures Mult(Inverse(c), Mult(c, x)) == x
  {
  }

  lemma MultRightInverse(a: Digit, z: Digit)
    ensures Mult(Mult(a, z), Inverse(z)) == a
  {
  }

  /** Row `(8 - i) % 8` undoes row `i`, checked row by row on every digit. */
  lemma PermInverse(i: int, n: Digit)
    requires 0 <= i < 8
    ensures Perm((8 - i) % 8, Perm(i, n)) == n
  {
    if i == 0 { PermRowInverse(0, 0, n); }
    else if i == 1 { PermRowInverse(1, 7, n); }
    else if i == 2 { PermRowInverse(2, 6, n); }
    else if i == 3 { PermRowInverse(3, 5, n); }
    else if i == 4 { PermRowInverse(4, 4, n); }
    else if i == 5 { PermRowInverse(5, 3, n); }
    else if i == 6 { PermRowInverse(6, 2, n); }
    else { PermRowInverse(7, 1, n); }
  }

  /** Row `j` undoes row `i` when `i + j` is 0 or 8. */
  lemma PermRowInverse(i: int, j: int, n: Digit)
    requires 0 <= i < 8 && 0 <= j < 8 && (i + j == 8 || i == j == 0)
    ensures Perm(j, Perm(i, n)) == n
  {
    var row, back := PermutationTable[i], PermutationTable[j];
    if i == 0 {
    } else if i == 1 {
      assert row == [1, 5, 7, 6, 2, 8, 3, 0, 9, 4] && back == [7, 0, 4, 6, 9, 1, 3, 2, 5, 8];
    } else if i == 2 {
      assert row == [5, 8, 0, 3, 7, 9, 6, 1, 4, 2] && back == [2, 7, 9, 3, 8, 0, 6, 4, 1, 5];
    } else if i == 3 {
      assert row == [8, 9, 1, 6, 0, 4, 3, 5, 2, 7] && back == [4, 2, 8, 6, 5, 7, 3, 9, 0, 1];
    } else if i == 4 {
      assert row == [9, 4, 5, 3, 1, 2, 6, 8, 7, 0] && back == row;
    } else if i == 5 {
      assert row == [4, 2, 8, 6, 5, 7, 3, 9, 0, 1] && back == [8, 9, 1, 6, 0, 4, 3, 5, 2, 7];
    } else if i == 6 {
      assert row == [2, 7, 9, 3, 8, 0, 6, 4, 1, 5] && back == [5, 8, 0, 3, 7, 9, 6, 1, 4, 2];
    } else {
      assert row == [7, 0, 4, 6, 9, 1, 3, 2, 5, 8] && back == [1, 5, 7, 6, 2, 8, 3, 0, 9, 4];
    }
  }

  /** Left cancellation: each row of the multiplication table is a bijection. */
  lemma MultCancelLeft(c: Digit, x: Digit, y: Digit)
    requires Mult(c, x) == Mult(c, y)
    ensures x == y
  {
    MultLeftInverse(c, x);
    MultLeftInverse(c, y);
  }

  /** Right cancellation: each column of the multiplication table is a bijection. */
  lemma MultCancelRight(a: Digit, b: Digit, z: Digit)
    requires Mult(a, z) == Mult(b, z)
    ensures a == b
  {
    MultRightInverse(a, z);
    MultRightInverse(b, z);
  }

  /** Each row of the permutation table is a bijection. */
  lemma PermInjective(i: int, x: Digit, y: Digit)
    requires 0 <= i < 8
    requires Perm(i, x) == Perm(i, y)
    ensures x == y
  {
    PermInverse(i, x);
    PermInverse(i, y);
  }

  /** `int(n)` for an ASCII digit character. */
  function DigitValue(c: char): Digit
    requires IsDigit(c)
  {
    c as int - '0' as int
  }

  /** `[int(n) for n in number[::-1]]`: the digits, last one first. */
  function ReversedDigits(number: string): (ds: seq<Digit>)
    requires AllDigits(number)
    ensures |ds| == |number|
    ensures forall i :: 0 <= i < |ds| ==> ds[i] == DigitValue(number[|number| - 1 - i])
  {
    seq(|number|, i requires 0 <= i < |number| => DigitValue(number[|number| - 1 - i]))
  }

  /** The running checksum after the first `k` digits of `ds`. */
  function Fold(ds: seq<Digit>, k: nat): Digit
    requires k <= |ds|
  {
    if k == 0 then 0 else Mult(Fold(ds, k - 1), Perm((k - 1) % 8, ds[k - 1]))
  }

  /** The Verhoeff checksum of a digit string. */
  function Checksum(number: string): Digit
    requires AllDigits(number)
  {
    var ds := ReversedDigits(number);
    Fold(ds, |ds|)
  }

  /** A candidate is accepted iff its checksum is 0. */
  predicate Accepted(number: string)
    requires AllDigits(number)
  {
    Checksum(number) == 0
  }

  /** `compute_checksum`: folds the reversed digits through the two tables.
      The loop index is non-negative, so `i & 7` is `i % 8`. The length of
      the input is not checked. */
  method ComputeChecksum(number: string) returns (checksum: int)
    requires AllDigits(number)
    ensures 0 <= checksum < 10
    ensures checksum == Checksum(number)
  {
    var digits := ReversedDigits(number);
    checksum := 0;
    var i := 0;
    while i < |digits|
      invariant 0 <= i <= |digits|
      invariant checksum == Fold(digits, i)
    {
      checksum := Mult(checksum, Perm(i % 8, digits[i]));
      i := i + 1;
    }
  }

  /** Two digit strings of the same length that differ at position `j` only. */
  predicate DifferAt(s: string, t: string, j: int)
  {
    |s| == |t| && 0 <= j < |s| && s[j] != t[j]
    && forall k :: 0 <= k < |s| && k != j ==> s[k] == t[k]
  }

  lemma {:induction false} FoldAgreeBefore(a: seq<Digit>, b: seq<Digit>, m: nat, k: nat)
    requires |a| == |b| && m < |a| && k <= m
    requires forall i :: 0 <= i < |a| && i != m ==> a[i] == b[i]
    ensures Fold(a, k) == Fold(b, k)
  {
    if k > 0 {
      FoldAgreeBefore(a, b, m, k - 1);
      assert a[k - 1] == b[k - 1];
      FoldSameStep(a, b, k);
    }
  }

  /** Folding in the same digit onto equal running checksums keeps them
      equal. */
  lemma FoldSameStep(a: seq<Digit>, b: seq<Digit>, k: nat)
    requires 0 < k <= |a| && k <= |b| && a[k - 1] == b[k - 1]
    requires Fold(a, k - 1) == Fold(b, k - 1)
    ensures Fold(a, k) == Fold(b, k)
  {
  }

  lemma {:induction false} FoldDifferAfter(a: seq<Digit>, b: seq<Digit>, m: nat, k: nat)
    requires |a| == |b| && m < k <= |a|
    requires a[m] != b[m]
    requires forall i :: 0 <= i < |a| && i != m ==> a[i] == b[i]
    ensures Fold(a, k) != Fold(b, k)
  {
    if k == m + 1 {
      FoldAgreeBefore(a, b, m, m);
      FoldDifferAt(a, b, m);
    } else {
      assert Fold(a, k - 1) != Fold(b, k - 1) by {
        FoldDifferAfter(a, b, m, k - 1);
      }
      assert a[k - 1] == b[k - 1];
      FoldKeepsDiffer(a, b, k);
    }
  }

  /** Folding in two different digits onto the same running checksum gives
      different checksums. */
  lemma FoldDifferAt(a: seq<Digit>, b: seq<Digit>, m: nat)
    requires m < |a| && m < |b| && a[m] != b[m]
    requires Fold(a, m) == Fold(b, m)
    ensures Fold(a, m + 1) != Fold(b, m + 1)
  {
    var pa, pb := Perm(m % 8, a[m]), Perm(m % 8, b[m]);
    assert pa != pb by {
      if pa == pb {
        PermInjective(m % 8, a[m], b[m]);
      }
    }
    if Fold(a, m + 1) == Fold(b, m + 1) {
      MultCancelLeft(Fold(a, m), pa, pb);
    }
  }

  /** Folding in the same digit onto different running checksums keeps them
      different. */
  lemma FoldKeepsDiffer(a: seq<Digit>, b: seq<Digit>, k: nat)
    requires 0 < k <= |a| && k <= |b| && a[k - 1] == b[k - 1]
    requires Fold(a, k - 1) != Fold(b, k - 1)
    ensures Fold(a, k) != Fold(b, k)
  {
    if Fold(a, k) == Fold(b, k) {
      MultCancelRight(Fold(a, k - 1), Fold(b, k - 1), Perm((k - 1) % 8, a[k - 1]));
    }
  }

  /** Changing one digit always changes the checksum. */
  lemma SingleDigitChangesChecksum(s: string, t: string, j: int)
    requires AllDigits(s) && AllDigits(t)
    requires DifferAt(s, t, j)
    ensures Checksum(s) != Checksum(t)
  {
    var a, b := ReversedDigits(s), ReversedDigits(t);
    var m := |s| - 1 - j;
    assert a[m] != b[m];
    forall i | 0 <= i < |a| && i != m ensures a[i] == b[i] {
      assert s[|s| - 1 - i] == t[|t| - 1 - i];
    }
    FoldDifferAfter(a, b, m, |a|);
  }

  /** Verhoeff detects every single-digit error: a number one digit away
      from an accepted number is rejected. */
  lemma SingleDigitErrorRejected(s: string, t: string, j: int)
    requires AllDigits(s) && AllDigits(t)
    requires DifferAt(s, t, j)
    requires Accepted(s)
    ensures !Accepted(t)
  {
    SingleDigitChangesChecksum(s, t, j);
  }
}
