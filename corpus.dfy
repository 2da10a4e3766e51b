/** The word corpus of `AnagramGame.__init__` (anagram_bot.py): rows sorted by
    difficulty score, split into five contiguous tiers at fixed row indices. */
module Corpus {

  /** One row of the scored word list: `(Word, Score, Gloss)`. */
  datatype WordEntry = WordEntry(word: string, basePoints: int, definition: string)

  /** `LEVEL_BOUNDARIES`: the first row index of tiers 1 to 5. */
  const LevelBoundaries: seq<nat> := [0, 1025, 5924, 14915, 19100]

  /** The tier the `if idx < ... elif ...` chain assigns to row `idx`. */
  function TierOfIndex(idx: nat): (t: int)
    ensures 1 <= t <= 5
    ensures LevelBoundaries[t - 1] <= idx
    ensures t < 5 ==> idx < LevelBoundaries[t]
  {
    if idx < LevelBoundaries[1] then 1
    else if idx < LevelBoundaries[2] then 2
    else if idx < LevelBoundaries[3] then 3
    else if idx < LevelBoundaries[4] then 4
    else 5
  }

  function TierStart(t: int, n: nat): nat
    requires 1 <= t <= 5
  {
    if LevelBoundaries[t - 1] < n then LevelBoundaries[t - 1] else n
  }

  function TierEnd(t: int, n: nat): nat
    requires 1 <= t <= 5
  {
    if t == 5 then n else if LevelBoundaries[t] < n then LevelBoundaries[t] else n
  }

  /** The contiguous slice of the corpus that forms tier `t`. */
  function Tier(rows: seq<WordEntry>, t: int): seq<WordEntry>
    requires 1 <= t <= 5
  {
    rows[TierStart(t, |rows|)..TierEnd(t, |rows|)]
  }

  /** The tier lists after the first `n` rows have been read. */
  ghost predicate SplitSoFar(levels: map<int, seq<WordEntry>>, rows: seq<WordEntry>, n: nat)
    requires n <= |rows|
  {
    && levels.Keys == {1, 2, 3, 4, 5}
    && forall t :: 1 <= t <= 5 ==> levels[t] == rows[TierStart(t, n)..TierEnd(t, n)]
  }

  /** The loop over the CSV rows that appends each row to its tier's list. */
  method SplitIntoTiers(rows: seq<WordEntry>) returns (levels: map<int, seq<WordEntry>>)
    ensures levels.Keys == {1, 2, 3, 4, 5}
    ensures forall t :: 1 <= t <= 5 ==> levels[t] == Tier(rows, t)
  {
    levels := map[1 := [], 2 := [], 3 := [], 4 := [], 5 := []];
    var idx := 0;
    while idx < |rows|
      invariant 0 <= idx <= |rows|
      invariant SplitSoFar(levels, rows, idx)
    {
      var level := TierOfIndex(idx);
      SplitStep(levels, rows, idx);
      levels := levels[level := levels[level] + [rows[idx]]];
      idx := idx + 1;
    }
  }

  lemma SplitStep(levels: map<int, seq<WordEntry>>, rows: seq<WordEntry>, idx: nat)
    requires idx < |rows|
    requires SplitSoFar(levels, rows, idx)
    ensures var t := TierOfIndex(idx);
            SplitSoFar(levels[t := levels[t] + [rows[idx]]], rows, idx + 1)
  {
    forall t | 1 <= t <= 5 {
      TierGrowth(rows, idx, t);
    }
  }

  /** Admitting row `idx` extends its own tier by that row and leaves the
      other four as they were. */
  lemma TierGrowth(rows: seq<WordEntry>, idx: nat, t: int)
    requires idx < |rows| && 1 <= t <= 5
    ensures rows[TierStart(t, idx + 1)..TierEnd(t, idx + 1)]
            == if t == TierOfIndex(idx) then rows[TierStart(t, idx)..TierEnd(t, idx)] + [rows[idx]]
               else rows[TierStart(t, idx)..TierEnd(t, idx)]
  {
    var k := TierOfIndex(idx);
    if t == k {
      assert TierStart(t, idx + 1) == TierStart(t, idx) && TierEnd(t, idx) == idx;
      assert rows[TierStart(t, idx)..idx] + [rows[idx]] == rows[TierStart(t, idx)..idx + 1];
    } else if t < k {
      assert TierEnd(t, idx + 1) == TierEnd(t, idx);
    } else {
      assert TierStart(t, idx + 1) == idx + 1 == TierEnd(t, idx + 1);
    }
  }

  /** The five tiers, in order, are the whole corpus: no row is lost or
      repeated. */
  lemma TiersPartitionCorpus(rows: seq<WordEntry>)
    ensures Tier(rows, 1) + Tier(rows, 2) + Tier(rows, 3) + Tier(rows, 4) + Tier(rows, 5) == rows
  {
    var n := |rows|;
    var e1, e2, e3, e4 := TierEnd(1, n), TierEnd(2, n), TierEnd(3, n), TierEnd(4, n);
    assert rows[..e1] + rows[e1..e2] == rows[..e2];
    assert rows[..e2] + rows[e2..e3] == rows[..e3];
    assert rows[..e3] + rows[e3..e4] == rows[..e4];
    assert rows[..e4] + rows[e4..] == rows;
  }

  /** Every row sits in the tier that the `if`/`elif` chain names for its index. */
  lemma RowInItsTier(rows: seq<WordEntry>, idx: nat)
    requires idx < |rows|
    ensures var t := TierOfIndex(idx);
            TierStart(t, |rows|) <= idx < TierEnd(t, |rows|)
            && Tier(rows, t)[idx - TierStart(t, |rows|)] == rows[idx]
  {
  }

  /** `random.choice` on a tier raises when the tier is empty; with more than
      19100 rows (the corpus holds about 20000) every tier is non-empty. */
  lemma AllTiersNonEmpty(rows: seq<WordEntry>, t: int)
    requires 1 <= t <= 5
    requires |rows| > LevelBoundaries[4]
    ensures |Tier(rows, t)| > 0
  {
    var n := |rows|;
    assert TierStart(t, n) == LevelBoundaries[t - 1];
    if t < 5 {
      assert LevelBoundaries[t - 1] < LevelBoundaries[t] < n;
      assert TierEnd(t, n) == LevelBoundaries[t];
    } else {
      assert TierEnd(t, n) == n;
    }
  }
}
