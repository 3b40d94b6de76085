/** The calibrated phred scaler: a table of qualities indexed by base quality and read
    position (machine cycle), read with both indices clamped to the table, and the
    integer preparation of that table from the calibration counts: cells and
    per-quality defaults with too little evidence are marked missing (-1), and the
    defaults at both ends are never left missing. */
module PhredScaling {
  import opened JavaStrings
  import opened Wrappers

  /** `quality & 0xFF`: a signed byte read as an unsigned value. */
  function UnsignedByte(quality: int): (r: nat)
    requires -128 <= quality <= 127
    ensures r < 256 && (r - quality) % 256 == 0
    ensures quality >= 0 ==> r == quality
  {
    if quality < 0 then quality + 256 else quality
  }

  function Min(a: int, b: int): int
  {
    if a <= b then a else b
  }

  // ---------------------------------------------------------------------------------
  // Lookup

  /** `getScaledPhred`: the quality row is the last one for a quality beyond the table,
      and the column is the last one for a read position beyond the row. A negative
      read position, or a table without rows or columns, indexes outside the table
      whichever branch is taken, and is the error (`None`). */
  function ScaledPhred(curve: array2<int>, quality: int, readPosition: int): (r: Option<int>)
    requires -128 <= quality <= 127
    reads curve
  {
    var qualIndex := UnsignedByte(quality);
    if readPosition < 0 || curve.Length0 == 0 || curve.Length1 == 0 then None
    else if qualIndex >= curve.Length0 then Some(curve[curve.Length0 - 1, Min(readPosition, curve.Length1 - 1)])
    else if readPosition >= curve.Length1 then Some(curve[qualIndex, curve.Length1 - 1])
    else Some(curve[qualIndex, readPosition])
  }

  /** The lookup fails exactly for a negative read position or an empty table;
      otherwise it reads the cell at both indices clamped into the table, and inside
      the table the exact cell. */
  lemma ScaledPhredClamps(curve: array2<int>, quality: int, readPosition: int)
    requires -128 <= quality <= 127
    ensures ScaledPhred(curve, quality, readPosition).None?
        <==> readPosition < 0 || curve.Length0 == 0 || curve.Length1 == 0
    ensures readPosition >= 0 && curve.Length0 > 0 && curve.Length1 > 0 ==>
      ScaledPhred(curve, quality, readPosition)
      == Some(curve[Min(UnsignedByte(quality), curve.Length0 - 1), Min(readPosition, curve.Length1 - 1)])
    ensures 0 <= readPosition < curve.Length1 && UnsignedByte(quality) < curve.Length0
      ==> ScaledPhred(curve, quality, readPosition) == Some(curve[UnsignedByte(quality), readPosition])
  {
  }

  /** A negative byte stands for a quality of 128 or more. */
  lemma NegativeByteIsHighQuality(quality: int)
    requires -128 <= quality < 0
    ensures UnsignedByte(quality) >= 128
  {
  }

  // ---------------------------------------------------------------------------------
  // Evidence marking

  /** Calibration counts: one row per base quality, one entry per read position. */
  predicate Rectangular(counts: seq<seq<int>>, rows: nat, cols: nat)
  {
    |counts| == rows && forall i :: 0 <= i < rows ==> |counts[i]| == cols
  }

  /** The value of a cell before interpolation: missing (-1) below the evidence
      threshold, otherwise the empirical quality of its counts (the conversion is
      the parameter `empirical`). */
  function CellValue(mismatches: int, total: int, minEvidence: int, empirical: (int, int) -> int): int
  {
    if total < minEvidence then -1 else empirical(mismatches, total)
  }

  /** The first loop of the constructor: every cell of the curve set from its counts. */
  method MarkCurve(mismatches: seq<seq<int>>, totals: seq<seq<int>>, rows: nat, cols: nat,
                   minEvidence: int, empirical: (int, int) -> int)
    returns (curve: array2<int>)
    requires Rectangular(mismatches, rows, cols) && Rectangular(totals, rows, cols)
    ensures fresh(curve) && curve.Length0 == rows && curve.Length1 == cols
    ensures forall i, j :: 0 <= i < rows && 0 <= j < cols ==>
      curve[i, j] == CellValue(mismatches[i][j], totals[i][j], minEvidence, empirical)
  {
    curve := new int[rows, cols];
    for i := 0 to rows
      invariant forall i', j :: 0 <= i' < i && 0 <= j < cols ==>
        curve[i', j] == CellValue(mismatches[i'][j], totals[i'][j], minEvidence, empirical)
    {
      for j := 0 to cols
        invariant forall i', j' :: 0 <= i' < i && 0 <= j' < cols ==>
          curve[i', j'] == CellValue(mismatches[i'][j'], totals[i'][j'], minEvidence, empirical)
        invariant forall j' :: 0 <= j' < j ==>
          curve[i, j'] == CellValue(mismatches[i][j'], totals[i][j'], minEvidence, empirical)
      {
        if totals[i][j] < minEvidence {
          curve[i, j] := -1;
        } else {
          curve[i, j] := empirical(mismatches[i][j], totals[i][j]);
        }
      }
    }
  }

  /** A cell is marked missing exactly when its evidence is short, provided the
      empirical conversion itself never yields -1. */
  lemma MarkedExactlyWhenShort(mismatches: int, total: int, minEvidence: int, empirical: (int, int) -> int)
    requires empirical(mismatches, total) != -1
    ensures CellValue(mismatches, total, minEvidence, empirical) == -1 <==> total < minEvidence
  {
  }

  // ---------------------------------------------------------------------------------
  // Per-quality totals

  /** The sum of a row of counts. */
  function RowSum(row: seq<int>): int
    decreases |row|
  {
    if |row| == 0 then 0 else RowSum(row[..|row| - 1]) + row[|row| - 1]
  }

  /** The per-quality totals as the constructor accumulates them: into an `int`, so
      every addition of a 64-bit count is cast back to 32 bits. */
  function WrappedRowSum(row: seq<int>): int
    decreases |row|
  {
    if |row| == 0 then 0 else IntCast(WrappedRowSum(row[..|row| - 1]) + row[|row| - 1])
  }

  lemma IntCastCongruent(x: int, y: int)
    requires (x - y) % 0x1_0000_0000 == 0
    ensures IntCast(x) == IntCast(y)
  {
    var m := 0x1_0000_0000;
    var k := (x - y) / m;
    assert x == y + k * m;
    assert (y + k * m) % m == y % m;
  }

  /** The accumulated total is the true total cast to 32 bits. */
  lemma {:induction false} WrappedRowSumIsCast(row: seq<int>)
    ensures WrappedRowSum(row) == IntCast(RowSum(row))
    decreases |row|
  {
    if |row| > 0 {
      var init := row[..|row| - 1];
      WrappedRowSumIsCast(init);
      var s := RowSum(init);
      var x := row[|row| - 1];
      assert (IntCast(s) + x - (s + x)) % 0x1_0000_0000 == 0 by {
        assert IntCast(s) + x - (s + x) == IntCast(s) - s;
        assert (s - IntCast(s)) % 0x1_0000_0000 == 0;
      }
      IntCastCongruent(IntCast(s) + x, s + x);
    }
  }

  /** With 32-bit accumulation, a quality whose read positions hold plenty of evidence
      can end up with a negative total, below any positive threshold: two positions
      with 2^31 - 1 and 1 observations give the total -2^31. */
  lemma WrappedTotalLosesEvidence()
    ensures var row := [INT_MAX, 1];
      RowSum(row) == INT_MAX + 1 && WrappedRowSum(row) == INT_MIN
      && WrappedRowSum(row) < 1 <= row[0]
  {
    var row := [INT_MAX, 1];
    assert row[..1] == [INT_MAX] && row[..1][..0] == [];
    assert RowSum([INT_MAX]) == INT_MAX && WrappedRowSum([INT_MAX]) == INT_MAX;
    assert IntCast(INT_MAX + 1) == INT_MIN;
  }

  /** A quality total is at least every one of its non-negative counts, so a quality
      with one well-observed read position has enough evidence for its default. */
  lemma {:induction false} RowSumCoversEachCount(row: seq<int>, j: nat, minEvidence: int)
    requires forall k :: 0 <= k < |row| ==> row[k] >= 0
    requires j < |row| && row[j] >= minEvidence
    ensures RowSum(row) >= minEvidence
    decreases |row|
  {
    var init := row[..|row| - 1];
    RowSumNonNegative(init);
    if j < |row| - 1 {
      RowSumCoversEachCount(init, j, minEvidence);
    }
  }

  lemma {:induction false} RowSumNonNegative(row: seq<int>)
    requires forall k :: 0 <= k < |row| ==> row[k] >= 0
    ensures RowSum(row) >= 0
    decreases |row|
  {
    if |row| > 0 {
      RowSumNonNegative(row[..|row| - 1]);
    }
  }

  /** The per-quality mismatch and total counts: the row sums over the read positions,
      accumulated without narrowing. */
  method QualitySums(mismatches: seq<seq<int>>, totals: seq<seq<int>>, rows: nat, cols: nat)
    returns (qualityMismatches: array<int>, qualityTotals: array<int>)
    requires Rectangular(mismatches, rows, cols) && Rectangular(totals, rows, cols)
    ensures fresh(qualityMismatches) && fresh(qualityTotals)
    ensures qualityMismatches.Length == rows && qualityTotals.Length == rows
    ensures forall i :: 0 <= i < rows ==>
      qualityMismatches[i] == RowSum(mismatches[i]) && qualityTotals[i] == RowSum(totals[i])
  {
    qualityMismatches := new int[rows];
    qualityTotals := new int[rows];
    for i := 0 to rows
      invariant forall i' :: 0 <= i' < i ==>
        qualityMismatches[i'] == RowSum(mismatches[i']) && qualityTotals[i'] == RowSum(totals[i'])
    {
      qualityMismatches[i] := 0;
      qualityTotals[i] := 0;
      for j := 0 to cols
        invariant forall i' :: 0 <= i' < i ==>
          qualityMismatches[i'] == RowSum(mismatches[i']) && qualityTotals[i'] == RowSum(totals[i'])
        invariant qualityMismatches[i] == RowSum(mismatches[i][..j])
        invariant qualityTotals[i] == RowSum(totals[i][..j])
      {
        assert mismatches[i][..j + 1][..j] == mismatches[i][..j];
        assert totals[i][..j + 1][..j] == totals[i][..j];
        qualityMismatches[i] := qualityMismatches[i] + mismatches[i][j];
        qualityTotals[i] := qualityTotals[i] + totals[i][j];
      }
      assert mismatches[i][..cols] == mismatches[i] && totals[i][..cols] == totals[i];
    }
  }

  // ---------------------------------------------------------------------------------
  // Per-quality defaults

  /** `qualityDefaults`: each quality's value from its totals as for a cell, then a
      missing first default becomes 0 and a missing last default becomes the last
      quality index. */
  method QualityDefaults(qualityMismatches: array<int>, qualityTotals: array<int>,
                         minEvidence: int, empirical: (int, int) -> int)
    returns (qualityDefaults: array<int>)
    requires qualityMismatches.Length == qualityTotals.Length > 0
    ensures fresh(qualityDefaults) && qualityDefaults.Length == qualityTotals.Length
    ensures forall i :: 0 < i < qualityDefaults.Length - 1 ==>
      qualityDefaults[i] == CellValue(qualityMismatches[i], qualityTotals[i], minEvidence, empirical)
    ensures var first := CellValue(qualityMismatches[0], qualityTotals[0], minEvidence, empirical);
      qualityDefaults[0] == if first == -1 then 0 else first
    ensures var n := qualityTotals.Length;
      var last := CellValue(qualityMismatches[n - 1], qualityTotals[n - 1], minEvidence, empirical);
      n > 1 ==> qualityDefaults[n - 1] == if last == -1 then n - 1 else last
    ensures qualityDefaults[0] != -1 && qualityDefaults[qualityDefaults.Length - 1] != -1
  {
    var n := qualityTotals.Length;
    qualityDefaults := new int[n];
    for i := 0 to n
      invariant forall i' :: 0 <= i' < i ==>
        qualityDefaults[i'] == CellValue(qualityMismatches[i'], qualityTotals[i'], minEvidence, empirical)
    {
      if qualityTotals[i] < minEvidence {
        qualityDefaults[i] := -1;
      } else {
        qualityDefaults[i] := empirical(qualityMismatches[i], qualityTotals[i]);
      }
    }
    if qualityDefaults[0] == -1 {
      qualityDefaults[0] := 0;
    }
    if qualityDefaults[n - 1] == -1 {
      qualityDefaults[n - 1] := n - 1;
    }
  }
}
