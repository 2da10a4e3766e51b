/** The typo detector `simplified_levenshtein` (anagram_bot.py): a unit-cost
    edit-distance table filled row by row, followed, when the distance is
    exactly one, by a walk back through the table that names one letter of
    the second word. */
module Levenshtein {
  import opened Common

  function Min3(x: nat, y: nat, z: nat): (r: nat)
    ensures r <= x && r <= y && r <= z
    ensures r == x || r == y || r == z
  {
    if x <= y && x <= z then x else if y <= z then y else z
  }

  /** `Min3` does not depend on the order of its first two arguments. */
  lemma SwappedMin(d: nat, e: nat, x: nat, y: nat, z: nat, x': nat, y': nat, z': nat)
    requires d == 1 + Min3(x, y, z) && e == 1 + Min3(y', x', z')
    requires x == x' && y == y' && z == z'
    ensures d == e
  {
  }

  /** Entry `dp[i][j]` of the table: the edit distance between `a[..i]` and
      `b[..j]`, where a deletion, an insertion and a substitution each cost 1
      and a matching last letter costs nothing. No adjacent-swap discount. */
  function Dist(a: string, b: string, i: nat, j: nat): (r: nat)
    requires i <= |a| && j <= |b|
    ensures i == 0 || j == 0 ==> r == i + j
    decreases i + j
  {
    if i == 0 then j
    else if j == 0 then i
    else if a[i - 1] == b[j - 1] then Dist(a, b, i - 1, j - 1)
    else 1 + Min3(Dist(a, b, i - 1, j), Dist(a, b, i, j - 1), Dist(a, b, i - 1, j - 1))
  }

  function Distance(a: string, b: string): nat {
    Dist(a, b, |a|, |b|)
  }

  /** What `simplified_levenshtein` produces: the pair `(distance, letter)`,
      or the IndexError raised when the deletion branch indexes one past the
      end of the second word. */
  datatype EditResult = Computed(distance: nat, letter: Option<char>) | IndexOutOfRange

  /** The backtrack from cell (i, j): step diagonally over matching letters;
      at the first mismatch, a cell that is one more than the cell above is
      a deletion (reported with `b[j]`), anything else a substitution
      (reported with `b[j - 1]`). Leaving through the first column reports
      `b[j]`; leaving through the first row reports no letter. */
  function Walk(a: string, b: string, i: nat, j: nat): (r: EditResult)
    requires i <= |a| && j <= |b|
    // Only the deletion step at the last column of the table can overrun.
    ensures r.IndexOutOfRange? ==> 0 < i && j == |b|
    // No letter is named only when the walk leaves through the first row.
    ensures r.Computed? && r.letter.None? ==> r.distance == Distance(a, b)
    decreases i + j
  {
    if i > 0 && j > 0 then
      if a[i - 1] == b[j - 1] then Walk(a, b, i - 1, j - 1)
      else if Dist(a, b, i, j) == Dist(a, b, i - 1, j) + 1 then
        (if j < |b| then Computed(Dist(a, b, i, j), Some(b[j])) else IndexOutOfRange)
      else Computed(Dist(a, b, i, j), Some(b[j - 1]))
    else if i > 0 then
      (if j < |b| then Computed(Dist(a, b, i, j), Some(b[j])) else IndexOutOfRange)
    else Computed(Distance(a, b), None)
  }

  /** The whole result of `simplified_levenshtein(a, b)`. */
  function EditOutcome(a: string, b: string): (r: EditResult)
    ensures Distance(a, b) != 1 ==> r == Computed(Distance(a, b), None)
    ensures r.IndexOutOfRange? ==> Distance(a, b) == 1 && |a| > 0
  {
    if Distance(a, b) == 1 then Walk(a, b, |a|, |b|) else Computed(Distance(a, b), None)
  }

  /** Row `i` of the table (`for j in range(1, len2 + 1)`), given the rows
      above it and the first column. */
  method FillRow(word1: string, word2: string, dp: array2<nat>, i: nat)
    requires dp.Length0 == |word1| + 1 && dp.Length1 == |word2| + 1
    requires 1 <= i <= |word1|
    requires dp[i, 0] == i
    requires forall p, q {:trigger dp[p, q]} :: 0 <= p < i && 0 <= q <= |word2| ==> dp[p, q] == Dist(word1, word2, p, q)
    modifies dp
    ensures forall p, q {:trigger dp[p, q]} :: 0 <= p <= i && 0 <= q <= |word2| ==> dp[p, q] == Dist(word1, word2, p, q)
    ensures forall p, q :: i < p <= |word1| && 0 <= q <= |word2| ==> dp[p, q] == old(dp[p, q])
  {
    var j := 1;
    while j <= |word2|
      invariant 1 <= j <= |word2| + 1
      invariant forall p, q {:trigger dp[p, q]} :: 0 <= p < i && 0 <= q <= |word2| ==> dp[p, q] == Dist(word1, word2, p, q)
      invariant forall q {:trigger dp[i, q]} :: 0 <= q < j ==> dp[i, q] == Dist(word1, word2, i, q)
      invariant forall p, q :: i < p <= |word1| && 0 <= q <= |word2| ==> dp[p, q] == old(dp[p, q])
    {
      var cell: nat;
      if word1[i - 1] == word2[j - 1] {
        cell := dp[i - 1, j - 1];  // no operation needed
      } else {
        cell := Min3(dp[i - 1, j] + 1, dp[i, j - 1] + 1, dp[i - 1, j - 1] + 1);
      }
      assert cell == Dist(word1, word2, i, j);
      dp[i, j] := cell;
      j := j + 1;
    }
  }

  /** The table `dp` of `simplified_levenshtein`: first column, first row,
      then the rows in order. */
  method FillTable(word1: string, word2: string) returns (dp: array2<nat>)
    ensures fresh(dp)
    ensures dp.Length0 == |word1| + 1 && dp.Length1 == |word2| + 1
    ensures forall p, q {:trigger dp[p, q]} :: 0 <= p <= |word1| && 0 <= q <= |word2| ==> dp[p, q] == Dist(word1, word2, p, q)
  {
    var len1, len2 := |word1|, |word2|;
    dp := new nat[len1 + 1, len2 + 1];
    var i := 0;
    while i <= len1
      invariant 0 <= i <= len1 + 1
      invariant forall p :: 0 <= p < i ==> dp[p, 0] == p
    {
      dp[i, 0] := i;
      i := i + 1;
    }
    var j := 0;
    while j <= len2
      invariant 0 <= j <= len2 + 1
      invariant forall p :: 0 <= p <= len1 ==> dp[p, 0] == p
      invariant forall q :: 0 <= q < j ==> dp[0, q] == q
    {
      dp[0, j] := j;
      j := j + 1;
    }
    i := 1;
    while i <= len1
      invariant 1 <= i <= len1 + 1
      invariant forall p :: i <= p <= len1 ==> dp[p, 0] == p
      invariant forall p, q {:trigger dp[p, q]} :: 0 <= p < i && 0 <= q <= len2 ==> dp[p, q] == Dist(word1, word2, p, q)
    {
      FillRow(word1, word2, dp, i);
      i := i + 1;
    }
  }

  /** `simplified_levenshtein(word1, word2)`: fill the table, and when the
      distance is exactly one walk back from the bottom-right cell. */
  method SimplifiedLevenshtein(word1: string, word2: string) returns (r: EditResult)
    ensures r == EditOutcome(word1, word2)
    ensures r.Computed? ==> r.distance == Distance(word1, word2)
    ensures r.Computed? && r.letter.Some? ==> r.distance == 1
  {
    var len1, len2 := |word1|, |word2|;
    var dp := FillTable(word1, word2);
    EditOutcomeDistance(word1, word2);
    if dp[len1, len2] == 1 {
      var i, j := len1, len2;
      while i > 0 && j > 0
        invariant 0 <= i <= len1 && 0 <= j <= len2
        invariant Walk(word1, word2, i, j) == Walk(word1, word2, len1, len2)
        decreases i + j
      {
        if word1[i - 1] == word2[j - 1] {
          i, j := i - 1, j - 1;
        } else if dp[i, j] == dp[i - 1, j] + 1 {
          if j < len2 {
            return Computed(dp[i, j], Some(word2[j]));
          }
          return IndexOutOfRange;
        } else {
          return Computed(dp[i, j], Some(word2[j - 1]));
        }
      }
      if i > 0 {
        if j < len2 {
          return Computed(dp[i, j], Some(word2[j]));
        }
        return IndexOutOfRange;
      }
    }
    return Computed(dp[len1, len2], None);
  }

  // ---------------------------------------------------------------------
  // The table is the standard edit distance

  lemma {:induction false} DistLowerBound(a: string, b: string, i: nat, j: nat)
    requires i <= |a| && j <= |b|
    ensures Dist(a, b, i, j) >= i - j && Dist(a, b, i, j) >= j - i
    decreases i + j, 1
  {
    if i > 0 && j > 0 {
      if a[i - 1] == b[j - 1] {
        DistLowerBound(a, b, i - 1, j - 1);
      } else {
        MismatchLowerBound(a, b, i, j);
      }
    }
  }

  /** The step of `DistLowerBound` at a mismatch. */
  lemma {:induction false} MismatchLowerBound(a: string, b: string, i: nat, j: nat)
    requires 0 < i <= |a| && 0 < j <= |b| && a[i - 1] != b[j - 1]
    ensures Dist(a, b, i, j) >= i - j && Dist(a, b, i, j) >= j - i
    decreases i + j, 0
  {
    DistLowerBound(a, b, i - 1, j);
    DistLowerBound(a, b, i, j - 1);
    DistLowerBound(a, b, i - 1, j - 1);
    var x, y, z := Dist(a, b, i - 1, j), Dist(a, b, i, j - 1), Dist(a, b, i - 1, j - 1);
    assert Dist(a, b, i, j) == 1 + Min3(x, y, z);
  }

  lemma {:induction false} DistUpperBound(a: string, b: string, i: nat, j: nat)
    requires i <= |a| && j <= |b|
    ensures Dist(a, b, i, j) <= if i < j then j else i
    decreases i + j
  {
    if i > 0 && j > 0 {
      DistUpperBound(a, b, i - 1, j - 1);
    }
  }

  lemma {:induction false} DistSymmetric(a: string, b: string, i: nat, j: nat)
    requires i <= |a| && j <= |b|
    ensures Dist(a, b, i, j) == Dist(b, a, j, i)
    decreases i + j, 1
  {
    if i > 0 && j > 0 {
      if a[i - 1] == b[j - 1] {
        DistSymmetric(a, b, i - 1, j - 1);
      } else {
        MismatchSymmetric(a, b, i, j);
      }
    }
  }

  /** The step of `DistSymmetric` at a mismatch: the insertion and deletion
      entries trade places, and `Min3` does not care about their order. */
  lemma {:induction false} MismatchSymmetric(a: string, b: string, i: nat, j: nat)
    requires 0 < i <= |a| && 0 < j <= |b| && a[i - 1] != b[j - 1]
    ensures Dist(a, b, i, j) == Dist(b, a, j, i)
    decreases i + j, 0
  {
    DistSymmetric(a, b, i - 1, j);
    DistSymmetric(a, b, i, j - 1);
    DistSymmetric(a, b, i - 1, j - 1);
    SwappedMin(Dist(a, b, i, j), Dist(b, a, j, i),
               Dist(a, b, i - 1, j), Dist(a, b, i, j - 1), Dist(a, b, i - 1, j - 1),
               Dist(b, a, j, i - 1), Dist(b, a, j - 1, i), Dist(b, a, j - 1, i - 1));
  }

  /** Matching runs of letters are stepped over: neither the table entry nor
      the walk changes along a common stretch. */
  lemma {:induction false} CommonRun(a: string, b: string, i: nat, j: nat, n: nat)
    requires i + n <= |a| && j + n <= |b|
    requires forall m :: i <= m < i + n ==> a[m] == b[m - i + j]
    ensures Dist(a, b, i + n, j + n) == Dist(a, b, i, j)
    ensures Walk(a, b, i + n, j + n) == Walk(a, b, i, j)
  {
    if n > 0 {
      CommonRun(a, b, i, j, n - 1);
      assert a[i + n - 1] == b[(i + n - 1) - i + j];
    }
  }

  lemma {:induction false} DistZeroMeansEqual(a: string, b: string, i: nat, j: nat)
    requires i <= |a| && j <= |b|
    requires Dist(a, b, i, j) == 0
    ensures i == j && a[..i] == b[..j]
    decreases i + j
  {
    if i > 0 && j > 0 {
      DistZeroMeansEqual(a, b, i - 1, j - 1);
      assert a[..i] == a[..i - 1] + [a[i - 1]];
      assert b[..j] == b[..j - 1] + [b[j - 1]];
    }
  }

  /** Distance zero exactly for equal words. */
  lemma DistanceZeroIff(a: string, b: string)
    ensures Distance(a, b) == 0 <==> a == b
  {
    if a == b {
      CommonRun(a, b, 0, 0, |a|);
    }
    if Distance(a, b) == 0 {
      DistZeroMeansEqual(a, b, |a|, |b|);
      assert a == a[..|a|] && b == b[..|b|];
    }
  }

  /** Along the walk the table entry stays equal to the final distance, so
      every distance the source reports is the distance of the two words. */
  lemma {:induction false} WalkDistance(a: string, b: string, i: nat, j: nat)
    requires i <= |a| && j <= |b|
    requires Dist(a, b, i, j) == Distance(a, b)
    ensures Walk(a, b, i, j).Computed? ==> Walk(a, b, i, j).distance == Distance(a, b)
    decreases i + j
  {
    if i > 0 && j > 0 && a[i - 1] == b[j - 1] {
      WalkDistance(a, b, i - 1, j - 1);
    }
  }

  lemma EditOutcomeDistance(a: string, b: string)
    ensures EditOutcome(a, b).Computed? ==> EditOutcome(a, b).distance == Distance(a, b)
    ensures EditOutcome(a, b).Computed? && EditOutcome(a, b).letter.Some? ==> Distance(a, b) == 1
  {
    WalkDistance(a, b, |a|, |b|);
  }

  /** The letter a hint names is always one of the target word's letters. */
  lemma {:induction false} WalkLetterInTarget(a: string, b: string, i: nat, j: nat)
    requires i <= |a| && j <= |b|
    ensures var w := Walk(a, b, i, j);
            w.Computed? && w.letter.Some? ==> w.letter.value in b
    decreases i + j
  {
    if i > 0 && j > 0 && a[i - 1] == b[j - 1] {
      WalkLetterInTarget(a, b, i - 1, j - 1);
    }
  }

  // ---------------------------------------------------------------------
  // Which letter the walk names

  /** One substituted letter: the second word's letter is reported. */
  lemma Substitution(a: string, b: string, k: nat)
    requires |a| == |b| && k < |a| && a[k] != b[k]
    requires forall m :: 0 <= m < |a| && m != k ==> a[m] == b[m]
    ensures Distance(a, b) == 1
    ensures EditOutcome(a, b) == Computed(1, Some(b[k]))
  {
    SubstitutedCell(a, b, k);
    CommonRun(a, b, k + 1, k + 1, |a| - (k + 1));
  }

  /** The cell just past the substituted letter. */
  lemma SubstitutedCell(a: string, b: string, k: nat)
    requires |a| == |b| && k < |a| && a[k] != b[k]
    requires forall m :: 0 <= m < k ==> a[m] == b[m]
    ensures Dist(a, b, k + 1, k + 1) == 1
    ensures Walk(a, b, k + 1, k + 1) == Computed(1, Some(b[k]))
  {
    CommonRun(a, b, 0, 0, k);
    DistLowerBound(a, b, k, k + 1);
    MismatchCell(a, b, k + 1, k + 1);
  }

  /** One extra letter `c` in the first word at position `k` (not repeating
      the letter before it): the second word's letter at `k`, the one right
      after the extra letter, is reported. When the extra letter is the last
      one, that index is past the end of the second word and the source
      raises. */
  lemma ExtraLetter(b: string, k: nat, c: char)
    requires k <= |b|
    requires k == 0 || c != b[k - 1]
    ensures Distance(b[..k] + [c] + b[k..], b) == 1
    ensures EditOutcome(b[..k] + [c] + b[k..], b)
            == if k < |b| then Computed(1, Some(b[k])) else IndexOutOfRange
  {
    var a := b[..k] + [c] + b[k..];
    CommonRun(a, b, 0, 0, k);
    CommonRun(a, b, k + 1, k, |b| - k);
  }

  /** The first word lacks the letter `c` that the second word has at `k`:
      the missing letter is reported, except at the very front, where the
      walk leaves through the first row and reports nothing. */
  lemma MissingLetter(a: string, k: nat, c: char)
    requires k <= |a|
    requires k == 0 || c != a[k - 1]
    ensures Distance(a, a[..k] + [c] + a[k..]) == 1
    ensures EditOutcome(a, a[..k] + [c] + a[k..])
            == if k == 0 then Computed(1, None) else Computed(1, Some(c))
  {
    var b := a[..k] + [c] + a[k..];
    assert forall m :: 0 <= m < k ==> b[m] == a[m];
    assert forall m :: k <= m < |a| ==> b[m + 1] == a[m];
    MissingLetterIn(a, b, k, c);
  }

  /** `MissingLetter`, with the longer word given by its letters. */
  lemma MissingLetterIn(a: string, b: string, k: nat, c: char)
    requires k <= |a| && |b| == |a| + 1 && b[k] == c
    requires forall m :: 0 <= m < k ==> b[m] == a[m]
    requires forall m :: k <= m < |a| ==> b[m + 1] == a[m]
    requires k == 0 || c != a[k - 1]
    ensures Distance(a, b) == 1
    ensures EditOutcome(a, b) == if k == 0 then Computed(1, None) else Computed(1, Some(c))
  {
    MissingCell(a, b, k, c);
    CommonRun(a, b, k, k + 1, |a| - k);
    assert Distance(a, b) == 1 && Walk(a, b, |a|, |b|) == Walk(a, b, k, k + 1);
  }

  /** The cell just past the missing letter. */
  lemma MissingCell(a: string, b: string, k: nat, c: char)
    requires k <= |a| && |b| == |a| + 1 && b[k] == c
    requires forall m :: 0 <= m < k ==> b[m] == a[m]
    requires k == 0 || c != a[k - 1]
    ensures Dist(a, b, k, k + 1) == 1
    ensures k > 0 ==> Walk(a, b, k, k + 1) == Computed(1, Some(c))
  {
    CommonRun(a, b, 0, 0, k);
    if k > 0 {
      DistLowerBound(a, b, k - 1, k + 1);
      MismatchCell(a, b, k, k + 1);
    }
  }

  /** A mismatching cell with a 0 to its left or on its diagonal, and a
      non-zero entry above it, costs 1 and the walk reports `b[j - 1]`. */
  lemma MismatchCell(a: string, b: string, i: nat, j: nat)
    requires 0 < i <= |a| && 0 < j <= |b| && a[i - 1] != b[j - 1]
    requires Dist(a, b, i, j - 1) == 0 || Dist(a, b, i - 1, j - 1) == 0
    requires Dist(a, b, i - 1, j) >= 1
    ensures Dist(a, b, i, j) == 1
    ensures Walk(a, b, i, j) == Computed(1, Some(b[j - 1]))
  {
    assert Dist(a, b, i, j) == 1 + Min3(Dist(a, b, i - 1, j), Dist(a, b, i, j - 1), Dist(a, b, i - 1, j - 1));
  }

  /** An extra leading letter in the guess reports the target's first letter. */
  lemma ExtraLeadingLetter(c: char, b: string)
    requires |b| > 0
    ensures EditOutcome([c] + b, b) == Computed(1, Some(b[0]))
  {
    ExtraLetter(b, 0, c);
    assert b[..0] + [c] + b[0..] == [c] + b;
  }

  /** A missing leading letter reports no letter. */
  lemma MissingLeadingLetter(c: char, a: string)
    ensures EditOutcome(a, [c] + a) == Computed(1, None)
  {
    MissingLetter(a, 0, c);
    assert a[..0] + [c] + a[0..] == [c] + a;
  }

  /** One extra trailing letter that differs from the last letter of the
      target makes the deletion branch index past the end. */
  lemma ExtraTrailingLetter(b: string, c: char)
    requires b == [] || c != b[|b| - 1]
    ensures EditOutcome(b + [c], b) == IndexOutOfRange
  {
    ExtraLetter(b, |b|, c);
    assert b[..|b|] + [c] + b[|b|..] == b + [c];
  }

  lemma PlantPlane()
    ensures EditOutcome("plant", "plane") == Computed(1, Some('e'))
  {
    Substitution("plant", "plane", 4);
  }

  lemma PlantsPlant()
    ensures EditOutcome("plants", "plant") == IndexOutOfRange
  {
    ExtraTrailingLetter("plant", 's');
    assert "plant" + ['s'] == "plants";
  }

  /** Swapping two adjacent letters costs two edits: there is no
      transposition discount, so no letter is reported. */
  lemma TigreTiger()
    ensures Distance("tigre", "tiger") == 2
    ensures EditOutcome("tigre", "tiger") == Computed(2, None)
  {
    var a, b := "tigre", "tiger";
    CommonRun(a, b, 0, 0, 3);
    assert Dist(a, b, 3, 4) == 1;
    assert Dist(a, b, 4, 3) == 1;
    assert Dist(a, b, 4, 4) == 1;
    assert Dist(a, b, 4, 5) == 1;
    assert Dist(a, b, 5, 4) == 1;
  }
}
