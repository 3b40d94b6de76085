/** The chunked coverage accumulation of the coverage command: a reference sequence is
    processed in chunks of a fixed size; for each chunk the records overlapping it add
    their (scaled, rounded) coverage to a per-position array, the previous chunk's
    arrays are kept for look-backs, and a smoothing window slides a sum over the
    per-position coverage. */
module Coverage {
  import opened Wrappers
  import opened JavaStrings

  // ---------------------------------------------------------------------------------
  // formatMetaForBed

  predicate KeptMeta(m: Option<string>)
  {
    m.Some? && !IsBlank(m.value)
  }

  /** The meta strings that reach the BED label: not null and not blank, in order. */
  function KeptMetas(metas: seq<Option<string>>): (r: seq<string>)
    ensures forall k :: 0 <= k < |r| ==> |r[k]| > 0 && !IsBlank(r[k])
    ensures |r| <= |metas|
  {
    if |metas| == 0 then []
    else
      var last := metas[|metas| - 1];
      KeptMetas(metas[..|metas| - 1]) + (if KeptMeta(last) then [last.value] else [])
  }

  lemma KeptMetasStep(metas: seq<Option<string>>, i: nat)
    requires i < |metas|
    ensures KeptMetas(metas[..i + 1]) == KeptMetas(metas[..i]) + (if KeptMeta(metas[i]) then [metas[i].value] else [])
  {
    assert metas[..i + 1][..i] == metas[..i];
  }

  /** `formatMetaForBed`: the kept meta strings joined by single commas. */
  method FormatMetaForBed(metas: seq<Option<string>>) returns (bedLabel: string)
    ensures bedLabel == Join(KeptMetas(metas), ',')
  {
    bedLabel := "";
    var stringsOutput := 0;
    for i := 0 to |metas|
      invariant bedLabel == Join(KeptMetas(metas[..i]), ',')
      invariant stringsOutput == |KeptMetas(metas[..i])|
    {
      var meta := metas[i];
      KeptMetasStep(metas, i);
      if meta.None? || IsBlank(meta.value) {
        assert KeptMetas(metas[..i + 1]) == KeptMetas(metas[..i]) + [];
        assert KeptMetas(metas[..i]) + [] == KeptMetas(metas[..i]);
        assert bedLabel == Join(KeptMetas(metas[..i + 1]), ',');
        continue;
      }
      assert KeptMetas(metas[..i + 1]) == KeptMetas(metas[..i]) + [meta.value];
      JoinSnoc(KeptMetas(metas[..i]), meta.value, ',');
      if stringsOutput > 0 {
        bedLabel := bedLabel + ",";
      }
      bedLabel := bedLabel + meta.value;
      assert bedLabel == Join(KeptMetas(metas[..i + 1]), ',');
      stringsOutput := stringsOutput + 1;
    }
    assert metas[..|metas|] == metas;
  }

  /** The label is empty exactly when no meta string is kept (kept strings are never
      empty), and when no kept string holds a comma, splitting the label at the commas
      gives back exactly the kept strings: no leading, trailing or doubled comma. */
  lemma {:induction false} FormatMetaForBedRoundTrip(metas: seq<Option<string>>)
    ensures Join(KeptMetas(metas), ',') == "" <==> |KeptMetas(metas)| == 0
    ensures |KeptMetas(metas)| >= 1 && (forall k :: 0 <= k < |KeptMetas(metas)| ==> ',' !in KeptMetas(metas)[k]) ==>
              Fields(Join(KeptMetas(metas), ','), ',') == KeptMetas(metas)
  {
    var kept := KeptMetas(metas);
    if |kept| >= 1 {
      JoinLength(kept, ',');
    }
    if |kept| >= 1 && (forall k :: 0 <= k < |kept| ==> ',' !in kept[k]) {
      FieldsOfJoin(kept, ',');
    }
  }

  lemma {:induction false} JoinLength(parts: seq<string>, sep: char)
    requires |parts| >= 1
    ensures |Join(parts, sep)| >= |parts[0]|
    decreases |parts|
  {
    if |parts| > 1 {
      JoinLength(parts[1..], sep);
    }
  }

  // ---------------------------------------------------------------------------------
  // Chunk arithmetic

  /** The chunk size actually used: the configured size unless the smoothing window
      would not fit in half a chunk, in which case `2 * smoothing + 2`. */
  function EffectiveChunkSize(configured: nat, smoothing: nat): nat
  {
    if smoothing < configured / 2 then configured else smoothing * 2 + 2
  }

  /** The rule amounts to taking the larger of the configured size and
      `2 * smoothing + 2`: the window of `2 * smoothing + 1` positions always fits. */
  lemma EffectiveChunkSizeIsMax(configured: nat, smoothing: nat)
    ensures EffectiveChunkSize(configured, smoothing) ==
              if configured >= 2 * smoothing + 2 then configured else 2 * smoothing + 2
    ensures EffectiveChunkSize(configured, smoothing) >= 2 * smoothing + 2
    ensures EffectiveChunkSize(configured, smoothing) >= configured
  {
  }

  function Min(a: int, b: int): int
  {
    if a <= b then a else b
  }

  function Max(a: int, b: int): int
  {
    if a >= b then a else b
  }

  /** First position of chunk `k`. */
  function ChunkStart(start: int, size: nat, k: int): int
  {
    k * size + start
  }

  /** One past the last position of chunk `k`, clipped to the end of the region. */
  function ChunkEnd(start: int, end: int, size: nat, k: int): int
  {
    Min(ChunkStart(start, size, k) + size, end)
  }

  /** The chunk a position falls in. */
  function ChunkIndex(start: int, size: nat, pos: int): int
    requires size > 0
  {
    (pos - start) / size
  }

  lemma MulIsZero(a: int, size: int)
    requires size > 0 && -size < a * size < size
    ensures a == 0
  {
    if a >= 1 {
      MulNonNegative(a - 1, size);
    } else if a <= -1 {
      MulNonNegative(-a - 1, size);
    }
  }

  lemma MulNonNegative(a: int, b: int)
    requires a >= 0 && b >= 0
    ensures a * b >= 0
  {
  }

  lemma DivOfMultiple(q: int, size: int, rem: int)
    requires size > 0 && 0 <= rem < size
    ensures (q * size + rem) / size == q
  {
    var x := q * size + rem;
    var d := x / size;
    var m := x % size;
    assert d * size + m == x;
    assert (d - q) * size == d * size - q * size;
    MulIsZero(d - q, size);
  }

  /** A position lies inside the chunk `ChunkIndex` names, and a position inside chunk
      `k` has index `k`. */
  lemma ChunkIndexCorrect(start: int, size: nat, pos: int, k: int)
    requires size > 0
    ensures ChunkStart(start, size, ChunkIndex(start, size, pos)) <= pos < ChunkStart(start, size, ChunkIndex(start, size, pos)) + size
    ensures ChunkStart(start, size, k) <= pos < ChunkStart(start, size, k) + size ==> ChunkIndex(start, size, pos) == k
  {
    if ChunkStart(start, size, k) <= pos < ChunkStart(start, size, k) + size {
      DivOfMultiple(k, size, pos - ChunkStart(start, size, k));
    }
  }

  /** Consecutive chunks are adjacent: a chunk that is not clipped ends where the next
      one starts. */
  lemma ChunksAdjacent(start: int, end: int, size: nat, k: int)
    requires ChunkStart(start, size, k) + size <= end
    ensures ChunkEnd(start, end, size, k) == ChunkStart(start, size, k + 1)
  {
  }

  // ---------------------------------------------------------------------------------
  // Records and their coverage

  /** What the reader supplies for one alignment: its start, its IH value, its coverage
      amount already scaled and rounded, and the positions it covers (bit `j` stands for
      position `start + j`). */
  datatype CoverageRecord = CoverageRecord(start: int, ih: int, amount: int, bits: seq<bool>)

  predicate CoversAt(start: int, bits: seq<bool>, pos: int)
  {
    start <= pos < start + |bits| && bits[pos - start]
  }

  /** What the first `j` bits of a record starting at `start` add at `pos`. */
  function BitsHit(start: int, bits: seq<bool>, pos: int, j: int, amount: int): int
  {
    if CoversAt(start, bits, pos) && pos < start + j then amount else 0
  }

  /** What a record starting at `start` adds at `pos`. */
  function Contribution(start: int, bits: seq<bool>, pos: int, amount: int): int
  {
    BitsHit(start, bits, pos, |bits|, amount)
  }

  function IhIncrement(ih: int, single: bool): int
  {
    if (ih == 1) == single then 1 else 0
  }

  /** Summed coverage of the records at a position. */
  function CoverageSum(recs: seq<CoverageRecord>, pos: int): int
  {
    if |recs| == 0 then 0
    else
      var r := recs[|recs| - 1];
      CoverageSum(recs[..|recs| - 1], pos) + Contribution(r.start, r.bits, pos, r.amount)
  }

  /** Number of records covering a position whose IH is 1 (`single`) or not. */
  function IhCount(recs: seq<CoverageRecord>, pos: int, single: bool): int
  {
    if |recs| == 0 then 0
    else
      var r := recs[|recs| - 1];
      IhCount(recs[..|recs| - 1], pos, single) + Contribution(r.start, r.bits, pos, IhIncrement(r.ih, single))
  }

  /** With all amounts non-negative, the coverage at a position is at least each amount
      of a record covering it. */
  lemma {:induction false} CoverageSumBound(recs: seq<CoverageRecord>, pos: int, k: nat)
    requires forall j :: 0 <= j < |recs| ==> recs[j].amount >= 0
    requires k < |recs| && CoversAt(recs[k].start, recs[k].bits, pos)
    ensures CoverageSum(recs, pos) >= recs[k].amount
    decreases |recs|
  {
    var init := recs[..|recs| - 1];
    CoverageSumNonNegative(init, pos);
    if k < |recs| - 1 {
      CoverageSumBound(init, pos, k);
    }
  }

  lemma {:induction false} CoverageSumNonNegative(recs: seq<CoverageRecord>, pos: int)
    requires forall j :: 0 <= j < |recs| ==> recs[j].amount >= 0
    ensures CoverageSum(recs, pos) >= 0
    decreases |recs|
  {
    if |recs| > 0 {
      CoverageSumNonNegative(recs[..|recs| - 1], pos);
    }
  }

  /** Facts about the coverage of every position at once, for quantified statements
      over the positions of a chunk. */
  lemma NothingHitYet(start: int, bits: seq<bool>, amount: int)
    ensures forall pos :: BitsHit(start, bits, pos, 0, amount) == 0
  {
  }

  lemma AllBitsHit(start: int, bits: seq<bool>, amount: int)
    ensures forall pos :: Contribution(start, bits, pos, amount) == BitsHit(start, bits, pos, |bits|, amount)
  {
  }

  lemma NoRecordsNoCoverage(recs: seq<CoverageRecord>)
    requires |recs| == 0
    ensures forall pos :: CoverageSum(recs, pos) == 0 && IhCount(recs, pos, true) == 0 && IhCount(recs, pos, false) == 0
  {
  }

  lemma OneMoreRecord(recs: seq<CoverageRecord>, k: nat)
    requires k < |recs|
    ensures forall pos :: CoverageSum(recs[..k + 1], pos) == CoverageSum(recs[..k], pos) + Contribution(recs[k].start, recs[k].bits, pos, recs[k].amount)
    ensures forall pos, single :: IhCount(recs[..k + 1], pos, single) == IhCount(recs[..k], pos, single) + Contribution(recs[k].start, recs[k].bits, pos, IhIncrement(recs[k].ih, single))
  {
    assert recs[..k + 1][..k] == recs[..k];
  }

  lemma ChunkStartStep(start: int, size: nat, k: int)
    ensures ChunkStart(start, size, k + 1) == ChunkStart(start, size, k) + size
  {
    assert (k + 1) * size == k * size + size;
  }

  datatype CoverageError = IndexOutOfBounds(index: int) | NullArray

  /** `new long[n]` / `new int[n]`: a fresh zero-filled array. */
  method ZeroArray(n: nat) returns (a: array<int>)
    ensures fresh(a) && a.Length == n
    ensures forall i :: 0 <= i < n ==> a[i] == 0
  {
    a := new int[n];
    for i := 0 to n
      invariant forall k :: 0 <= k < i ==> a[k] == 0
    {
      a[i] := 0;
    }
  }

  // ---------------------------------------------------------------------------------
  // The chunk buffers

  /** The per-reference chunk state of the coverage task. The records overlapping a
      range of positions are supplied by `overlapping` (the circular record buffer).
      The previous chunk's arrays are never written again, so they are kept as values. */
  class ChunkBuffers {
    const start: int
    const end: int
    const chunkSize: nat
    const numberChunks: nat
    const tsv: bool
    const overlapping: (int, int) -> seq<CoverageRecord>

    var chunkCov: array?<int>
    var chunkCovPrev: Option<seq<int>>
    var ih1: array?<int>
    var ih1Prev: Option<seq<int>>
    var ihgt1: array?<int>
    var ihgt1Prev: Option<seq<int>>
    var chunkStart: int
    var chunkEnd: int
    var chunkNumber: nat

    /** The records chunk `k` accumulates. */
    function ChunkRecords(k: int): seq<CoverageRecord>
    {
      overlapping(ChunkStart(start, chunkSize, k), ChunkEnd(start, end, chunkSize, k))
    }

    /** The records of the current and of the previous chunk. */
    function CurrentRecords(): seq<CoverageRecord>
      reads this
    {
      ChunkRecords(chunkNumber - 1)
    }

    function PreviousRecords(): seq<CoverageRecord>
      reads this
    {
      ChunkRecords(chunkNumber - 2)
    }

    /** Which arrays exist, their sizes, and the chunk bounds. */
    ghost predicate Shape()
      reads this
    {
      && chunkSize > 0
      && chunkNumber <= numberChunks
      && (chunkNumber == 0 ==> chunkCov == null && chunkStart == -1 && chunkEnd == -1)
      && (chunkNumber <= 1 ==> chunkCovPrev.None? && ih1Prev.None? && ihgt1Prev.None?)
      && (chunkNumber > 0 ==>
            && chunkCov != null && chunkCov.Length == chunkSize
            && chunkStart == ChunkStart(start, chunkSize, chunkNumber - 1)
            && chunkEnd == ChunkEnd(start, end, chunkSize, chunkNumber - 1))
      && (chunkNumber > 1 ==> chunkCovPrev.Some? && |chunkCovPrev.value| == chunkSize)
      && (!tsv ==> ih1 == null && ihgt1 == null && ih1Prev.None? && ihgt1Prev.None?)
      && (tsv && chunkNumber == 0 ==> ih1 == null && ihgt1 == null)
      && (tsv && chunkNumber > 0 ==>
            && ih1 != null && ihgt1 != null && ih1.Length == chunkSize && ihgt1.Length == chunkSize
            && ih1 != ihgt1 && ih1 != chunkCov && ihgt1 != chunkCov)
      && (tsv && chunkNumber > 1 ==>
            ih1Prev.Some? && ihgt1Prev.Some? && |ih1Prev.value| == chunkSize && |ihgt1Prev.value| == chunkSize)
    }

    /** Each array holds, position by position, what the records of its chunk add up to. */
    ghost predicate Valid()
      reads this, chunkCov, ih1, ihgt1
    {
      && Shape()
      && (chunkNumber > 0 ==> forall i :: 0 <= i < chunkSize ==>
            chunkCov[i] == CoverageSum(CurrentRecords(), chunkStart + i))
      && (chunkNumber > 1 ==> forall i :: 0 <= i < chunkSize ==>
            chunkCovPrev.value[i] == CoverageSum(PreviousRecords(), chunkStart - chunkSize + i))
      && (tsv && chunkNumber > 0 ==> forall i :: 0 <= i < chunkSize ==>
            ih1[i] == IhCount(CurrentRecords(), chunkStart + i, true) &&
            ihgt1[i] == IhCount(CurrentRecords(), chunkStart + i, false))
      && (tsv && chunkNumber > 1 ==> forall i :: 0 <= i < chunkSize ==>
            ih1Prev.value[i] == IhCount(PreviousRecords(), chunkStart - chunkSize + i, true) &&
            ihgt1Prev.value[i] == IhCount(PreviousRecords(), chunkStart - chunkSize + i, false))
    }

    /** The state `setReferenceSequence` leaves: no chunk loaded yet. */
    constructor (start: int, end: int, chunkSize: nat, numberChunks: nat, tsv: bool,
                 overlapping: (int, int) -> seq<CoverageRecord>)
      requires chunkSize > 0
      ensures Valid()
      ensures this.start == start && this.end == end && this.chunkSize == chunkSize
      ensures this.numberChunks == numberChunks && this.tsv == tsv && this.overlapping == overlapping
      ensures chunkNumber == 0 && chunkStart == -1 && chunkEnd == -1 && chunkCov == null
    {
      this.start := start;
      this.end := end;
      this.chunkSize := chunkSize;
      this.numberChunks := numberChunks;
      this.tsv := tsv;
      this.overlapping := overlapping;
      chunkCov := null;
      chunkCovPrev := None;
      ih1 := null;
      ih1Prev := None;
      ihgt1 := null;
      ihgt1Prev := None;
      chunkStart := -1;
      chunkEnd := -1;
      chunkNumber := 0;
    }

    /** `addBitSet`: every set bit whose position falls inside the current arrays adds the
        record's amount there and, in TSV mode, counts the record as IH = 1 or IH > 1;
        nothing outside the arrays changes. */
    method AddBitSet(recStart: int, ih: int, amount: int, bits: seq<bool>)
      requires chunkCov != null
      requires tsv ==> ih1 != null && ihgt1 != null && ih1.Length == chunkCov.Length && ihgt1.Length == chunkCov.Length
      requires tsv ==> ih1 != ihgt1 && ih1 != chunkCov && ihgt1 != chunkCov
      requires !tsv ==> ih1 == null && ihgt1 == null
      modifies chunkCov, ih1, ihgt1
      ensures forall i :: 0 <= i < chunkCov.Length ==>
                chunkCov[i] == old(chunkCov[i]) + Contribution(recStart, bits, chunkStart + i, amount)
      ensures tsv ==> forall i :: 0 <= i < ih1.Length ==>
                ih1[i] == old(ih1[i]) + Contribution(recStart, bits, chunkStart + i, IhIncrement(ih, true))
      ensures tsv ==> forall i :: 0 <= i < ihgt1.Length ==>
                ihgt1[i] == old(ihgt1[i]) + Contribution(recStart, bits, chunkStart + i, IhIncrement(ih, false))
    {
      NothingHitYet(recStart, bits, amount);
      NothingHitYet(recStart, bits, IhIncrement(ih, true));
      NothingHitYet(recStart, bits, IhIncrement(ih, false));
      for j := 0 to |bits|
        invariant forall i :: 0 <= i < chunkCov.Length ==>
                    chunkCov[i] == old(chunkCov[i]) + BitsHit(recStart, bits, chunkStart + i, j, amount)
        invariant tsv ==> forall i :: 0 <= i < ih1.Length ==>
                    ih1[i] == old(ih1[i]) + BitsHit(recStart, bits, chunkStart + i, j, IhIncrement(ih, true))
        invariant tsv ==> forall i :: 0 <= i < ihgt1.Length ==>
                    ihgt1[i] == old(ihgt1[i]) + BitsHit(recStart, bits, chunkStart + i, j, IhIncrement(ih, false))
      {
        if bits[j] {
          var index := recStart + j - chunkStart;
          if 0 <= index < chunkCov.Length {
            chunkCov[index] := chunkCov[index] + amount;
            if tsv {
              if ih == 1 {
                ih1[index] := ih1[index] + 1;
              } else {
                ihgt1[index] := ihgt1[index] + 1;
              }
            }
          }
        }
      }
      AllBitsHit(recStart, bits, amount);
      AllBitsHit(recStart, bits, IhIncrement(ih, true));
      AllBitsHit(recStart, bits, IhIncrement(ih, false));
    }

    /** The record loop of `loadNextChunk`: each record overlapping the chunk is added. */
    method AddRecords(recs: seq<CoverageRecord>)
      requires chunkCov != null
      requires tsv ==> ih1 != null && ihgt1 != null && ih1.Length == chunkCov.Length && ihgt1.Length == chunkCov.Length
      requires tsv ==> ih1 != ihgt1 && ih1 != chunkCov && ihgt1 != chunkCov
      requires !tsv ==> ih1 == null && ihgt1 == null
      modifies chunkCov, ih1, ihgt1
      ensures forall i :: 0 <= i < chunkCov.Length ==>
                chunkCov[i] == old(chunkCov[i]) + CoverageSum(recs, chunkStart + i)
      ensures tsv ==> forall i :: 0 <= i < ih1.Length ==>
                ih1[i] == old(ih1[i]) + IhCount(recs, chunkStart + i, true)
      ensures tsv ==> forall i :: 0 <= i < ihgt1.Length ==>
                ihgt1[i] == old(ihgt1[i]) + IhCount(recs, chunkStart + i, false)
    {
      NoRecordsNoCoverage(recs[..0]);
      for k := 0 to |recs|
        invariant forall i :: 0 <= i < chunkCov.Length ==>
                    chunkCov[i] == old(chunkCov[i]) + CoverageSum(recs[..k], chunkStart + i)
        invariant tsv ==> forall i :: 0 <= i < ih1.Length ==>
                    ih1[i] == old(ih1[i]) + IhCount(recs[..k], chunkStart + i, true)
        invariant tsv ==> forall i :: 0 <= i < ihgt1.Length ==>
                    ihgt1[i] == old(ihgt1[i]) + IhCount(recs[..k], chunkStart + i, false)
      {
        OneMoreRecord(recs, k);
        AddBitSet(recs[k].start, recs[k].ih, recs[k].amount, recs[k].bits);
      }
      assert recs[..|recs|] == recs;
    }

    /** The contents of the current arrays, as values. */
    lemma PreviousHolds(cov: seq<int>, ih1s: seq<int>, ihgt1s: seq<int>)
      requires Valid() && chunkNumber > 0
      requires cov == chunkCov[..]
      requires tsv ==> ih1s == ih1[..] && ihgt1s == ihgt1[..]
      ensures forall i :: 0 <= i < chunkSize ==> cov[i] == CoverageSum(CurrentRecords(), chunkStart + i)
      ensures tsv ==> forall i :: 0 <= i < chunkSize ==>
                ih1s[i] == IhCount(CurrentRecords(), chunkStart + i, true) &&
                ihgt1s[i] == IhCount(CurrentRecords(), chunkStart + i, false)
    {
    }

    /** The arrays kept for the TSV output move the same way as the coverage array. */
    method AdvanceIhArrays()
      modifies this`ih1, this`ih1Prev, this`ihgt1, this`ihgt1Prev
      ensures fresh(ih1) && fresh(ihgt1) && ih1 != ihgt1
      ensures ih1.Length == chunkSize && ihgt1.Length == chunkSize
      ensures forall i :: 0 <= i < chunkSize ==> ih1[i] == 0 && ihgt1[i] == 0
      ensures ih1Prev == if old(ih1) == null then None else Some(old(ih1[..]))
      ensures ihgt1Prev == if old(ihgt1) == null then None else Some(old(ihgt1[..]))
    {
      ih1Prev := if ih1 == null then None else Some(ih1[..]);
      ih1 := ZeroArray(chunkSize);
      ihgt1Prev := if ihgt1 == null then None else Some(ihgt1[..]);
      ihgt1 := ZeroArray(chunkSize);
    }

    /** The first half of `loadNextChunk`: the current arrays become the previous ones,
        fresh zeroed arrays of the chunk size become current and the chunk bounds
        advance. */
    method AdvanceChunk()
      requires Shape() && chunkNumber < numberChunks
      modifies this
      ensures Shape()
      ensures chunkNumber == old(chunkNumber) + 1
      ensures chunkStart == ChunkStart(start, chunkSize, old(chunkNumber))
      ensures chunkNumber > 1 ==> chunkStart - chunkSize == old(chunkStart)
      ensures fresh(chunkCov) && forall i :: 0 <= i < chunkSize ==> chunkCov[i] == 0
      ensures tsv ==> fresh(ih1) && fresh(ihgt1)
      ensures tsv ==> forall i :: 0 <= i < chunkSize ==> ih1[i] == 0 && ihgt1[i] == 0
      ensures chunkCovPrev == if old(chunkCov) == null then None else Some(old(chunkCov[..]))
      ensures tsv ==> ih1Prev == if old(ih1) == null then None else Some(old(ih1[..]))
      ensures tsv ==> ihgt1Prev == if old(ihgt1) == null then None else Some(old(ihgt1[..]))
    {
      ChunkStartStep(start, chunkSize, chunkNumber - 1);
      chunkCovPrev := if chunkCov == null then None else Some(chunkCov[..]);
      chunkCov := ZeroArray(chunkSize);
      if tsv {
        AdvanceIhArrays();
      }
      chunkStart := ChunkStart(start, chunkSize, chunkNumber);
      chunkEnd := ChunkEnd(start, end, chunkSize, chunkNumber);
      chunkNumber := chunkNumber + 1;
    }

    /** `loadNextChunk`: once every chunk is loaded it reports false and changes nothing;
        otherwise the chunk advances and its records are accumulated into the fresh
        arrays. */
    method LoadNextChunk() returns (loaded: bool)
      requires Valid()
      modifies this
      ensures Valid()
      ensures loaded <==> old(chunkNumber) < numberChunks
      ensures !loaded ==> unchanged(this)
      ensures loaded ==> chunkNumber == old(chunkNumber) + 1 && fresh(chunkCov)
      ensures loaded ==> chunkStart == old(chunkNumber) * chunkSize + start
      ensures loaded ==> chunkEnd == Min(chunkStart + chunkSize, end)
      ensures loaded && old(chunkCov) != null ==> chunkCovPrev == Some(old(chunkCov[..]))
    {
      if chunkNumber < numberChunks {
        ghost var oldRecords := CurrentRecords();
        ghost var oldCov: seq<int> := if chunkCov == null then [] else chunkCov[..];
        ghost var oldIh1: seq<int> := if ih1 == null then [] else ih1[..];
        ghost var oldIhgt1: seq<int> := if ihgt1 == null then [] else ihgt1[..];
        ghost var oldStart := chunkStart;
        if chunkNumber > 0 { PreviousHolds(oldCov, oldIh1, oldIhgt1); }
        AdvanceChunk();
        assert PreviousRecords() == oldRecords;
        AddRecords(overlapping(chunkStart, chunkEnd));
        assert CurrentRecords() == overlapping(chunkStart, chunkEnd);
        loaded := true;
      } else {
        loaded := false;
      }
    }

    /** `getCoverageForPosition`: loads chunks until the position is before the current
        chunk's end and reads the position's coverage from the current or the previous
        chunk. Running out of chunks, a position more than a chunk behind, or a
        look-back before any previous chunk exists are the index and null-array errors
        of the original. A value returned is the summed coverage, at that position, of
        the records of the chunk holding the position. */
    method GetCoverageForPosition(pos: int) returns (r: Result<int, CoverageError>)
      requires Valid()
      modifies this
      ensures Valid()
      ensures pos < old(chunkEnd) ==> chunkNumber == old(chunkNumber)
      ensures pos >= chunkEnd ==> r == Err(IndexOutOfBounds(pos)) && chunkNumber == numberChunks
      ensures r.Ok? ==> start <= pos < chunkEnd
      ensures r.Ok? ==> r.value == CoverageSum(ChunkRecords(ChunkIndex(start, chunkSize, pos)), pos)
      ensures r.Err? ==> pos >= chunkEnd || pos < chunkStart
      ensures pos < chunkEnd && (chunkStart <= pos || (chunkNumber >= 2 && chunkStart - chunkSize <= pos)) ==> r.Ok?
      ensures r.Ok? && chunkNumber != old(chunkNumber) ==> chunkStart <= pos
    {
      while pos >= chunkEnd
        invariant Valid()
        invariant pos < old(chunkEnd) ==> chunkNumber == old(chunkNumber)
        invariant chunkNumber != old(chunkNumber) ==> chunkStart <= pos || chunkEnd <= pos || chunkNumber == 1
        decreases numberChunks - chunkNumber
      {
        var before := chunkNumber;
        var loaded := LoadNextChunk();
        if !loaded {
          return Err(IndexOutOfBounds(pos));
        }
        if before > 0 {
          ChunkStartStep(start, chunkSize, before - 1);
        }
      }
      r := LoadedCoverage(pos);
    }

    /** The read at the end of `getCoverageForPosition`, once the position is before the
        current chunk's end: a negative offset reads the previous array, counted back
        from its length. */
    function LoadedCoverage(pos: int): (r: Result<int, CoverageError>)
      requires Valid() && pos < chunkEnd
      reads this, chunkCov, ih1, ihgt1
      ensures r.Ok? ==> start <= pos && r.value == CoverageSum(ChunkRecords(ChunkIndex(start, chunkSize, pos)), pos)
      ensures r.Err? ==> pos < chunkStart
      ensures chunkStart <= pos || (chunkNumber >= 2 && chunkStart - chunkSize <= pos) ==> r.Ok?
    {
      var off := pos - chunkStart;
      if off < 0 then
        if chunkCovPrev.None? then Err(NullArray)
        else if |chunkCovPrev.value| + off < 0 then Err(IndexOutOfBounds(|chunkCovPrev.value| + off))
        else
          ChunkStartStep(start, chunkSize, chunkNumber - 2);
          ChunkIndexCorrect(start, chunkSize, pos, chunkNumber - 2);
          Ok(chunkCovPrev.value[|chunkCovPrev.value| + off])
      else
        ChunkIndexCorrect(start, chunkSize, pos, chunkNumber - 1);
        Ok(chunkCov[off])
    }

    /** What the chunk-size rule is for: the smoothing window reads the position
        `w + 1` ahead of its centre, which may load a chunk, and then the position `w`
        behind it. While the last position read ahead lies in the current chunk (as
        `GetCoverageForPosition` leaves it after loading), every position up to
        `2 * w + 1` behind it, and not before the region, is still readable, because
        a chunk holds at least `2 * w + 2` positions. */
    lemma WindowLookBackLoaded(p: int, w: nat)
      requires Valid() && chunkNumber > 0 && 2 * w + 2 <= chunkSize
      requires chunkStart <= p < chunkEnd
      ensures forall q :: Max(start, p - 2 * w - 1) <= q <= p ==> LoadedCoverage(q).Ok?
    {
      forall q | Max(start, p - 2 * w - 1) <= q <= p
        ensures LoadedCoverage(q).Ok?
      {
        if q < chunkStart {
          assert chunkNumber != 1;
        }
      }
    }

    /** `getValueForPosition`: a negative offset from the chunk start reads the previous
        array at `chunkSize + offset`, any other offset the current array; an index
        outside the array, or a missing previous array, is an error. */
    function ValueForPosition(pos: int, arr: array<int>, prev: Option<seq<int>>): (r: Result<int, CoverageError>)
      reads this, arr
      ensures r.Ok? && pos >= chunkStart ==> pos - chunkStart < arr.Length && r.value == arr[pos - chunkStart]
      ensures r.Ok? && pos < chunkStart ==>
                prev.Some? && 0 <= chunkSize + pos - chunkStart < |prev.value| && r.value == prev.value[chunkSize + pos - chunkStart]
      ensures pos >= chunkStart && pos - chunkStart < arr.Length ==> r.Ok?
      ensures pos < chunkStart && prev.Some? && 0 <= chunkSize + pos - chunkStart < |prev.value| ==> r.Ok?
    {
      var off := pos - chunkStart;
      if off < 0 then
        if prev.None? then Err(NullArray)
        else if chunkSize + off < 0 || chunkSize + off >= |prev.value| then Err(IndexOutOfBounds(chunkSize + off))
        else Ok(prev.value[chunkSize + off])
      else if off >= arr.Length then Err(IndexOutOfBounds(off))
      else Ok(arr[off])
    }

    /** `getIH1ForPosition` / `getIHgt1ForPosition`: a value returned is the number of
        records of the position's chunk that cover it with IH = 1 (or IH > 1), and a
        position of the current chunk, or of the previous one, always reads a value. */
    function IhForPosition(pos: int, single: bool): (r: Result<int, CoverageError>)
      requires Valid() && tsv && chunkNumber > 0
      reads this, chunkCov, ih1, ihgt1
      ensures r.Ok? ==> start <= pos && r.value == IhCount(ChunkRecords(ChunkIndex(start, chunkSize, pos)), pos, single)
      ensures chunkStart <= pos < chunkStart + chunkSize || (chunkNumber >= 2 && chunkStart - chunkSize <= pos < chunkStart)
        ==> r.Ok?
    {
      var r := if single then ValueForPosition(pos, ih1, ih1Prev) else ValueForPosition(pos, ihgt1, ihgt1Prev);
      if r.Ok? then
        if pos >= chunkStart then
          ChunkIndexCorrect(start, chunkSize, pos, chunkNumber - 1);
          r
        else
          ChunkStartStep(start, chunkSize, chunkNumber - 2);
          ChunkIndexCorrect(start, chunkSize, pos, chunkNumber - 2);
          r
      else r
    }
  }

  // ---------------------------------------------------------------------------------
  // The smoothing window

  /** Sum of `f` over `[lo, hi)`. */
  function RangeSum(f: int -> int, lo: int, hi: int): int
    decreases hi - lo
  {
    if hi <= lo then 0 else RangeSum(f, lo, hi - 1) + f(hi - 1)
  }

  lemma {:induction false} RangeSumDropFirst(f: int -> int, lo: int, hi: int)
    requires lo < hi
    ensures RangeSum(f, lo, hi) == f(lo) + RangeSum(f, lo + 1, hi)
    decreases hi - lo
  {
    if lo + 1 < hi {
      RangeSumDropFirst(f, lo, hi - 1);
    }
  }

  /** `CoverageSmoothingWindow`: a running sum and count of the coverage of the
      positions within `smoothWindowSize` of `pos`, clipped to `[start, end)`. The
      coverage of a position is supplied by `coverage`. */
  class SmoothingWindow {
    const smoothWindowSize: nat
    const start: int
    const end: int
    const coverage: int -> int
    var pos: int
    var numInSum: int
    var coverageSum: int

    /** First and one-past-last position of the window. */
    function Lo(): int
      reads this
    {
      Max(start, pos - smoothWindowSize)
    }

    function Hi(): int
      reads this
    {
      Min(end, pos + smoothWindowSize + 1)
    }

    ghost predicate Valid()
      reads this
    {
      && start <= pos <= end
      && coverageSum == RangeSum(coverage, Lo(), Hi())
      && numInSum == Hi() - Lo()
    }

    constructor (smoothWindowSize: nat, start: int, end: int, coverage: int -> int)
      requires start <= end
      ensures Valid()
      ensures this.smoothWindowSize == smoothWindowSize && this.start == start && this.end == end
      ensures this.coverage == coverage && pos == start
    {
      this.smoothWindowSize := smoothWindowSize;
      this.start := start;
      this.end := end;
      this.coverage := coverage;
      pos := start;
      numInSum := 0;
      coverageSum := 0;
      new;
      var i := pos;
      while i < pos + smoothWindowSize + 1 && i < end
        invariant start <= i <= Hi()
        invariant coverageSum == RangeSum(coverage, start, i)
        invariant numInSum == i - start
        invariant pos == start
      {
        coverageSum := coverageSum + coverage(i);
        numInSum := numInSum + 1;
        i := i + 1;
      }
    }

    /** `step`: the window moves one position to the right, taking in the position
        entering at its right edge and dropping the one leaving at its left edge. */
    method Step()
      requires Valid() && pos < end
      modifies this
      ensures Valid() && pos == old(pos) + 1
      ensures coverageSum == RangeSum(coverage, Max(start, pos - smoothWindowSize), Min(end, pos + smoothWindowSize + 1))
      ensures numInSum == Min(end, pos + smoothWindowSize + 1) - Max(start, pos - smoothWindowSize)
    {
      ghost var lo := Lo();
      ghost var hi := Min(end, pos + smoothWindowSize + 2);
      if pos + smoothWindowSize + 1 < end {
        assert RangeSum(coverage, lo, hi) == RangeSum(coverage, lo, Hi()) + coverage(pos + smoothWindowSize + 1);
        coverageSum := coverageSum + coverage(pos + smoothWindowSize + 1);
        numInSum := numInSum + 1;
      }
      assert coverageSum == RangeSum(coverage, lo, hi) && numInSum == hi - lo;
      if pos - smoothWindowSize >= start {
        RangeSumDropFirst(coverage, lo, hi);
        coverageSum := coverageSum - coverage(pos - smoothWindowSize);
        numInSum := numInSum - 1;
      }
      pos := pos + 1;
      assert Hi() == hi;
    }
  }
}
