/** The pairing tables of the unmated augmenter: uniquely mapped reads whose mate has no
    alignment information are remembered by read name, one table per side of the pair,
    and later used to fill in the mate fields of the other side, or to place an
    unmapped mate next to its mapped partner. Several augmenters filled in parallel
    are blended into one. */
module Augmenting {
  import opened Wrappers
  import opened JavaStrings

  /** The mate reference index of a record whose mate has no alignment. */
  const NO_ALIGNMENT_REFERENCE_INDEX: int := -1

  // ---------------------------------------------------------------------------------
  // Records

  /** The fields of a SAM record that the augmenter reads or writes. `nhOrIh` is the NH
      attribute, or IH when NH is absent; `alignmentScore`, `mateAlignmentScore` and
      `mateEnd` are the AS, mate-AS and mate-end attributes. */
  class SamRecord {
    var readName: string
    var paired: bool
    var unmapped: bool
    var properPair: bool
    var firstOfPair: bool
    var reverse: bool
    var refIndex: int
    var alignStart: int
    var alignEnd: int
    var nhOrIh: Option<int>
    var alignmentScore: Option<int>
    var mateRefIndex: int
    var mateAlignStart: int
    var mateReverse: bool
    var mateUnmapped: bool
    var mateAlignmentScore: Option<int>
    var mateEnd: Option<int>
    var insertSize: int
    var readGroup: Option<string>
    var predictedMedianInsertSize: Option<int>
    var bases: seq<bv8>
    var qualities: seq<bv8>

    /** `isAugmentableUnmated`: a paired, mapped record that is not a proper pair, has no
        mate reference, and has exactly one hit. */
    predicate AugmentableUnmated()
      reads this
    {
      paired && !unmapped && !properPair && mateRefIndex == NO_ALIGNMENT_REFERENCE_INDEX && nhOrIh == Some(1)
    }
  }

  /** The mate information kept for a stored record. */
  datatype CutRecord = CutRecord(refIndex: int, alignStart: int, alignEnd: int, reverse: bool, alignmentScore: int)

  /** A missing alignment score is stored as the smallest 32-bit integer. */
  function StoredScore(score: Option<int>): int
  {
    if score.None? then INT_MIN else score.value
  }

  /** The stored score is never negative for a missing attribute, so a mate score is
      written exactly when the record carried a non-negative one. */
  lemma StoredScoreNonNegative(score: Option<int>)
    ensures StoredScore(score) >= 0 <==> score.Some? && score.value >= 0
  {
  }

  function Cut(r: SamRecord): (c: CutRecord)
    reads r
    ensures c.refIndex == r.refIndex && c.alignStart == r.alignStart && c.alignEnd == r.alignEnd
    ensures c.reverse == r.reverse && c.alignmentScore == StoredScore(r.alignmentScore)
  {
    CutRecord(r.refIndex, r.alignStart, r.alignEnd, r.reverse, StoredScore(r.alignmentScore))
  }

  // ---------------------------------------------------------------------------------
  // Machine types and placement

  /** A machine orientation; its pairing rules are supplied by `Placement`. */
  datatype Orientation = Orientation(name: string)

  /** A sequencing machine type; `orientation` is None for a platform whose expected read
      orientation is unknown. */
  datatype MachineType = MachineType(name: string, orientation: Option<Orientation>)

  datatype PairOrientation = F1 | F2 | R1 | R2

  /** The computations the placement of an unmapped read relies on and that are not part
      of this model: the mate orientation an orientation expects, whether the mate lies
      upstream, the mean fragment length of a read group's statistics (truncated to an
      integer), the length of a reference sequence, and the complement of a base. */
  datatype Placement = Placement(
    mateOrientation: (Orientation, PairOrientation) -> Option<PairOrientation>,
    mateUpstream: (Orientation, PairOrientation) -> bool,
    fragmentMean: string -> Option<int>,
    refLength: int -> int,
    complement: bv8 -> bv8)

  datatype AugmentError =
    | UnrecognizedPlatform(readGroupId: string)
    | UnknownOrientation(platform: string)
    | NoFragmentSize

  /** The text of the error the original reports. */
  function Message(e: AugmentError): (m: string)
    ensures |m| > 0
  {
    match e
    case UnrecognizedPlatform(id) => "Read group " + id + " does not contain a recognized platform"
    case UnknownOrientation(p) => "Platform " + p + " is not supported (unknown expected read orientation)"
    case NoFragmentSize => "Could not determine mean fragment size for placing unmapped records."
  }

  /** The orientation of the mapped mate as seen from the unmapped read. */
  function MateOrientationFor(mateReverse: bool, firstOfPair: bool): (o: PairOrientation)
    ensures o.R1? || o.R2? <==> mateReverse
    ensures o.F2? || o.R2? <==> firstOfPair
  {
    if mateReverse then (if firstOfPair then R2 else R1)
    else (if firstOfPair then F2 else F1)
  }

  /** The start projected for an unmapped read: one fragment length past the mate's
      start when the mate is upstream, one fragment length before its end otherwise,
      and never before position 1. */
  function ProjectedStart(upstream: bool, mate: CutRecord, fragment: int, readLength: int): (s: int)
    ensures s >= 1
    ensures upstream ==> s >= mate.alignStart + fragment - readLength
    ensures !upstream ==> s >= mate.alignEnd - 1 - fragment
    ensures s == 1 || s == (if upstream then mate.alignStart + fragment - readLength else mate.alignEnd - 1 - fragment)
  {
    if upstream then Max(1, mate.alignStart + fragment - readLength)
    else Max(1, mate.alignEnd - 1 - fragment)
  }

  function Max(a: int, b: int): int
  {
    if a >= b then a else b
  }

  function Min(a: int, b: int): int
  {
    if a <= b then a else b
  }

  // ---------------------------------------------------------------------------------
  // Reversal of bases and qualities

  function Reversed<T>(s: seq<T>): (r: seq<T>)
    ensures |r| == |s|
    decreases |s|
  {
    if |s| == 0 then [] else Reversed(s[1..]) + [s[0]]
  }

  lemma {:induction false} ReversedAt<T>(s: seq<T>, k: nat)
    requires k < |s|
    ensures Reversed(s)[k] == s[|s| - 1 - k]
    decreases |s|
  {
    if k < |s| - 1 {
      ReversedAt(s[1..], k);
    }
  }

  /** Reversing twice gives the sequence back. */
  lemma ReversedTwice<T>(s: seq<T>)
    ensures Reversed(Reversed(s)) == s
  {
    forall k | 0 <= k < |s|
      ensures Reversed(Reversed(s))[k] == s[k]
    {
      ReversedAt(Reversed(s), k);
      ReversedAt(s, |s| - 1 - k);
    }
  }

  /** The quality loop of `updateUnmappedRecord`: quality `i` goes to position
      `length - 1 - i` of a new array. */
  method ReverseQualities(quals: seq<bv8>) returns (q: array<bv8>)
    ensures q[..] == Reversed(quals)
  {
    q := new bv8[|quals|];
    for i := 0 to |quals|
      invariant forall k :: |quals| - i <= k < |quals| ==> q[k] == quals[|quals| - 1 - k]
    {
      q[|quals| - 1 - i] := quals[i];
    }
    forall k | 0 <= k < |quals|
      ensures q[k] == Reversed(quals)[k]
    {
      ReversedAt(quals, k);
    }
  }

  lemma ReversedEverywhere<T>(s: seq<T>)
    ensures forall k :: 0 <= k < |s| ==> Reversed(s)[k] == s[|s| - 1 - k]
  {
    forall k | 0 <= k < |s|
      ensures Reversed(s)[k] == s[|s| - 1 - k]
    {
      ReversedAt(s, k);
    }
  }

  /** The reverse complement of the bases, with the complement of a single base
      supplied: the bases in reverse order, as the qualities are reversed, each one
      complemented. */
  function ReverseComplement(bases: seq<bv8>, complement: bv8 -> bv8): (r: seq<bv8>)
    ensures |r| == |bases|
    ensures forall k :: 0 <= k < |r| ==> r[k] == complement(Reversed(bases)[k])
  {
    ReversedEverywhere(bases);
    seq(|bases|, k requires 0 <= k < |bases| => complement(bases[|bases| - 1 - k]))
  }

  /** With a complement that undoes itself, taking the reverse complement twice gives
      the bases back. */
  lemma ReverseComplementTwice(bases: seq<bv8>, complement: bv8 -> bv8)
    requires forall b :: complement(complement(b)) == b
    ensures ReverseComplement(ReverseComplement(bases, complement), complement) == bases
  {
    var once := ReverseComplement(bases, complement);
    var twice := ReverseComplement(once, complement);
    forall k | 0 <= k < |bases|
      ensures twice[k] == bases[k]
    {
      ReversedAt(once, k);
      ReversedAt(bases, |bases| - 1 - k);
    }
  }

  // ---------------------------------------------------------------------------------
  // The tables

  /** The contents of an augmenter: the two sides keyed by read name, the machine type
      of each read group, and the two counters. */
  datatype Tables = Tables(
    left: map<string, CutRecord>,
    right: map<string, CutRecord>,
    machineTypes: map<string, MachineType>,
    unmated: int,
    unmapped: int)

  const EmptyTables := Tables(map[], map[], map[], 0, 0)

  /** `merge`: every table takes the other's entries on top of its own, and the
      counters add up. */
  function MergeTables(a: Tables, b: Tables): Tables
  {
    Tables(a.left + b.left, a.right + b.right, a.machineTypes + b.machineTypes,
           a.unmated + b.unmated, a.unmapped + b.unmapped)
  }

  /** A merged table has the keys of both, with the value of the second where both
      have one; the counters are the sums. */
  lemma MergeTablesLookup(a: Tables, b: Tables, name: string)
    ensures name in MergeTables(a, b).left <==> name in a.left || name in b.left
    ensures name in MergeTables(a, b).left ==>
              MergeTables(a, b).left[name] == if name in b.left then b.left[name] else a.left[name]
    ensures name in MergeTables(a, b).right <==> name in a.right || name in b.right
    ensures name in MergeTables(a, b).right ==>
              MergeTables(a, b).right[name] == if name in b.right then b.right[name] else a.right[name]
    ensures name in MergeTables(a, b).machineTypes <==> name in a.machineTypes || name in b.machineTypes
    ensures name in MergeTables(a, b).machineTypes ==>
              MergeTables(a, b).machineTypes[name] == if name in b.machineTypes then b.machineTypes[name] else a.machineTypes[name]
    ensures MergeTables(a, b).unmated == a.unmated + b.unmated
    ensures MergeTables(a, b).unmapped == a.unmapped + b.unmapped
  {
  }

  lemma MapUnionLaws<V>(x: map<string, V>, y: map<string, V>, z: map<string, V>)
    ensures map[] + x == x
    ensures (x + y) + z == x + (y + z)
  {
    assert (map[] + x).Keys == x.Keys;
    assert ((x + y) + z).Keys == (x + (y + z)).Keys;
  }

  /** Merging into empty tables gives the other tables; merging is associative. */
  lemma MergeTablesLaws(a: Tables, b: Tables, c: Tables)
    ensures MergeTables(EmptyTables, a) == a
    ensures MergeTables(MergeTables(a, b), c) == MergeTables(a, MergeTables(b, c))
  {
    MapUnionLaws(a.left, b.left, c.left);
    MapUnionLaws(a.right, b.right, c.right);
    MapUnionLaws(a.machineTypes, b.machineTypes, c.machineTypes);
  }

  /** The tables of a blend of augmenters, merged in list order. */
  function BlendTables(ts: seq<Tables>): Tables
    decreases |ts|
  {
    if |ts| == 0 then EmptyTables
    else MergeTables(BlendTables(ts[..|ts| - 1]), ts[|ts| - 1])
  }

  /** A read name is in a blended side exactly when some constituent had it on that
      side, and the entry comes from the last constituent that had it. */
  lemma {:induction false} BlendTablesLeft(ts: seq<Tables>, name: string)
    ensures name in BlendTables(ts).left <==> exists i :: 0 <= i < |ts| && name in ts[i].left
    ensures forall j :: 0 <= j < |ts| && name in ts[j].left && (forall i :: j < i < |ts| ==> name !in ts[i].left) ==>
              name in BlendTables(ts).left && BlendTables(ts).left[name] == ts[j].left[name]
    decreases |ts|
  {
    if |ts| > 0 {
      var init := ts[..|ts| - 1];
      BlendTablesLeft(init, name);
      assert forall i :: 0 <= i < |init| ==> init[i] == ts[i];
    }
  }

  lemma {:induction false} BlendTablesRight(ts: seq<Tables>, name: string)
    ensures name in BlendTables(ts).right <==> exists i :: 0 <= i < |ts| && name in ts[i].right
    ensures forall j :: 0 <= j < |ts| && name in ts[j].right && (forall i :: j < i < |ts| ==> name !in ts[i].right) ==>
              name in BlendTables(ts).right && BlendTables(ts).right[name] == ts[j].right[name]
    decreases |ts|
  {
    if |ts| > 0 {
      var init := ts[..|ts| - 1];
      BlendTablesRight(init, name);
      assert forall i :: 0 <= i < |init| ==> init[i] == ts[i];
    }
  }

  /** The blended counters are the sums of the constituents' counters. */
  function SumUnmated(ts: seq<Tables>): int
  {
    if |ts| == 0 then 0 else SumUnmated(ts[..|ts| - 1]) + ts[|ts| - 1].unmated
  }

  function SumUnmapped(ts: seq<Tables>): int
  {
    if |ts| == 0 then 0 else SumUnmapped(ts[..|ts| - 1]) + ts[|ts| - 1].unmapped
  }

  lemma {:induction false} BlendTablesCounters(ts: seq<Tables>)
    ensures BlendTables(ts).unmated == SumUnmated(ts)
    ensures BlendTables(ts).unmapped == SumUnmapped(ts)
    decreases |ts|
  {
    if |ts| > 0 {
      BlendTablesCounters(ts[..|ts| - 1]);
    }
  }

  /** The tables of an augmenter after `blend` has taken them: the maps are cleared, the
      counters stay. */
  function Cleared(t: Tables): (r: Tables)
    ensures r.left == map[] && r.right == map[] && r.machineTypes == map[]
    ensures r.unmated == t.unmated && r.unmapped == t.unmapped
  {
    t.(left := map[], right := map[], machineTypes := map[])
  }

  /** The record fields `updateUnmatedRecord` sets from the stored mate. */
  method TakeMate(record: SamRecord, p: CutRecord, tlen: (bool, int, int, int, int) -> int)
    modifies record`mateRefIndex, record`mateAlignStart, record`mateReverse, record`mateUnmapped,
             record`mateAlignmentScore, record`mateEnd, record`insertSize
    ensures record.mateRefIndex == p.refIndex && record.mateAlignStart == p.alignStart
    ensures record.mateReverse == p.reverse && !record.mateUnmapped
    ensures record.mateAlignmentScore == (if p.alignmentScore >= 0 then Some(p.alignmentScore) else old(record.mateAlignmentScore))
    ensures record.mateEnd == Some(p.alignEnd)
    ensures record.insertSize == if p.refIndex == record.refIndex
                                 then tlen(record.firstOfPair, record.alignStart, record.alignEnd - record.alignStart + 1,
                                           p.alignStart, p.alignEnd - p.alignStart + 1)
                                 else 0
  {
    record.mateRefIndex := p.refIndex;
    record.mateAlignStart := p.alignStart;
    record.mateReverse := p.reverse;
    record.mateUnmapped := false;
    if p.alignmentScore >= 0 {
      record.mateAlignmentScore := Some(p.alignmentScore);
    }
    record.mateEnd := Some(p.alignEnd);
    if p.refIndex == record.refIndex {
      record.insertSize := tlen(record.firstOfPair, record.alignStart, record.alignEnd - record.alignStart + 1,
                                p.alignStart, p.alignEnd - p.alignStart + 1);
    } else {
      record.insertSize := 0;
    }
  }

  // ---------------------------------------------------------------------------------
  // The augmenter

  class UnmatedAugmenter {
    var leftSide: map<string, CutRecord>
    var rightSide: map<string, CutRecord>
    var rgMachineTypes: map<string, MachineType>
    var augmentedUnmated: int
    var augmentedUnmapped: int

    function State(): Tables
      reads this
    {
      Tables(leftSide, rightSide, rgMachineTypes, augmentedUnmated, augmentedUnmapped)
    }

    /** Every machine type stored has a known orientation. */
    ghost predicate Valid()
      reads this
    {
      forall rg :: rg in rgMachineTypes ==> rgMachineTypes[rg].orientation.Some?
    }

    constructor ()
      ensures Valid() && State() == EmptyTables
    {
      leftSide := map[];
      rightSide := map[];
      rgMachineTypes := map[];
      augmentedUnmated := 0;
      augmentedUnmapped := 0;
    }

    /** The clearing of an augmenter's maps in `blend`; the counters stay. */
    method ClearMaps()
      modifies this`leftSide, this`rightSide, this`rgMachineTypes
      ensures Valid() && State() == Cleared(old(State()))
    {
      leftSide := map[];
      rightSide := map[];
      rgMachineTypes := map[];
    }

    /** `merge`: this augmenter takes the other's entries on top of its own and adds its
        counters. */
    method Merge(other: UnmatedAugmenter)
      requires Valid() && other.Valid()
      modifies this
      ensures Valid()
      ensures State() == MergeTables(old(State()), old(other.State()))
    {
      leftSide := leftSide + other.leftSide;
      rightSide := rightSide + other.rightSide;
      rgMachineTypes := rgMachineTypes + other.rgMachineTypes;
      augmentedUnmapped := augmentedUnmapped + other.augmentedUnmapped;
      augmentedUnmated := augmentedUnmated + other.augmentedUnmated;
    }

    /** `addRecord`: an augmentable record is stored under its read name, on the left
        when it is the first of its pair and on the right otherwise; any other record
        changes nothing. */
    method AddRecord(record: SamRecord)
      modifies this`leftSide, this`rightSide
      ensures record.AugmentableUnmated() && record.firstOfPair ==>
                leftSide == old(leftSide)[record.readName := Cut(record)] && rightSide == old(rightSide)
      ensures record.AugmentableUnmated() && !record.firstOfPair ==>
                rightSide == old(rightSide)[record.readName := Cut(record)] && leftSide == old(leftSide)
      ensures !record.AugmentableUnmated() ==> leftSide == old(leftSide) && rightSide == old(rightSide)
    {
      if record.AugmentableUnmated() {
        if record.firstOfPair {
          leftSide := leftSide[record.readName := Cut(record)];
        } else {
          rightSide := rightSide[record.readName := Cut(record)];
        }
      }
    }

    /** `addMachineType`: the read group's machine type is recorded; a platform that is
        not recognised, or whose read orientation is unknown, is an error and changes
        nothing. The machine type of the platform is supplied. */
    method AddMachineType(readGroupId: string, platform: string, machineType: Option<MachineType>)
      returns (r: Result<(), AugmentError>)
      requires Valid()
      modifies this`rgMachineTypes
      ensures Valid()
      ensures machineType.None? ==> r == Err(UnrecognizedPlatform(readGroupId))
      ensures machineType.Some? && machineType.value.orientation.None? ==> r == Err(UnknownOrientation(platform))
      ensures r.Ok? <==> machineType.Some? && machineType.value.orientation.Some?
      ensures r.Ok? ==> rgMachineTypes == old(rgMachineTypes)[readGroupId := machineType.value]
      ensures r.Err? ==> rgMachineTypes == old(rgMachineTypes)
    {
      if machineType.None? {
        return Err(UnrecognizedPlatform(readGroupId));
      } else if machineType.value.orientation.None? {
        return Err(UnknownOrientation(platform));
      }
      rgMachineTypes := rgMachineTypes[readGroupId := machineType.value];
      r := Ok(());
    }

    /** The entry stored for the record's mate: the right side for a first-of-pair
        record, the left side otherwise. */
    function MateEntry(record: SamRecord): (e: Option<CutRecord>)
      reads this, record
      ensures e.Some? <==> record.readName in (if record.firstOfPair then rightSide else leftSide)
    {
      var side := if record.firstOfPair then rightSide else leftSide;
      if record.readName in side then Some(side[record.readName]) else None
    }

    /** `updateUnmatedRecord`: an augmentable record whose mate is stored gets the mate's
        reference, start, strand and end, loses its mate-unmapped flag, gets the mate's
        alignment score when that is not negative, and an insert size computed by
        `tlen` on the same reference or 0 across references; the counter goes up by
        one. Any other record, and the counter, stay as they were. */
    method UpdateUnmatedRecord(record: SamRecord, tlen: (bool, int, int, int, int) -> int)
      modifies this`augmentedUnmated, record`mateRefIndex, record`mateAlignStart, record`mateReverse,
               record`mateUnmapped, record`mateAlignmentScore, record`mateEnd, record`insertSize
      ensures !old(record.AugmentableUnmated()) || old(MateEntry(record)).None? ==>
                unchanged(record) && augmentedUnmated == old(augmentedUnmated)
      ensures old(record.AugmentableUnmated()) && old(MateEntry(record)).Some? ==>
                var pair := old(MateEntry(record)).value;
                && augmentedUnmated == old(augmentedUnmated) + 1
                && record.mateRefIndex == pair.refIndex
                && record.mateAlignStart == pair.alignStart
                && record.mateReverse == pair.reverse
                && !record.mateUnmapped
                && record.mateAlignmentScore == (if pair.alignmentScore >= 0 then Some(pair.alignmentScore) else old(record.mateAlignmentScore))
                && record.mateEnd == Some(pair.alignEnd)
                && record.insertSize == if pair.refIndex == record.refIndex
                                        then tlen(record.firstOfPair, record.alignStart, record.alignEnd - record.alignStart + 1,
                                                  pair.alignStart, pair.alignEnd - pair.alignStart + 1)
                                        else 0
    {
      if record.AugmentableUnmated() {
        var pair := MateEntry(record);
        if pair.Some? {
          augmentedUnmated := augmentedUnmated + 1;
          TakeMate(record, pair.value, tlen);
        }
      }
    }

    /** The machine type of the record's read group, if one was recorded. */
    function MachineTypeOf(record: SamRecord): (mt: Option<MachineType>)
      reads this, record
      ensures mt.Some? ==> record.readGroup.Some? && record.readGroup.value in rgMachineTypes
    {
      if record.readGroup.Some? && record.readGroup.value in rgMachineTypes
      then Some(rgMachineTypes[record.readGroup.value]) else None
    }

    /** The mate fields of `updateUnmappedRecord`: reference, start, strand and end of the
        stored mate, mate-unmapped cleared, and the counter up by one. */
    method CopyMate(record: SamRecord, mate: CutRecord)
      modifies this`augmentedUnmapped, record`mateRefIndex, record`mateAlignStart, record`mateReverse,
               record`mateUnmapped, record`mateEnd
      ensures augmentedUnmapped == old(augmentedUnmapped) + 1 && MateCopied(record, mate)
    {
      augmentedUnmapped := augmentedUnmapped + 1;
      record.mateRefIndex := mate.refIndex;
      record.mateAlignStart := mate.alignStart;
      record.mateReverse := mate.reverse;
      record.mateUnmapped := false;
      record.mateEnd := Some(mate.alignEnd);
    }

    /** `updateUnmappedRecord`, without the remapping of duplicated (PAR) regions: when
        the mate is stored its fields are copied as for an unmated record; then, when the
        read group's machine type expects an orientation for this read, the read is
        placed next to its mate (`Placed`). In every other case the read's own position,
        strand, bases and qualities stay as they were. */
    method UpdateUnmappedRecord(record: SamRecord, env: Placement) returns (r: Result<(), AugmentError>)
      requires Valid()
      modifies this`augmentedUnmapped, record`mateRefIndex, record`mateAlignStart, record`mateReverse,
               record`mateUnmapped, record`mateEnd, record`refIndex, record`reverse, record`bases,
               record`qualities, record`alignStart
      ensures old(MateEntry(record)).None? ==> r.Ok? && unchanged(record) && augmentedUnmapped == old(augmentedUnmapped)
      ensures old(MateEntry(record)).Some? ==>
                augmentedUnmapped == old(augmentedUnmapped) + 1 && MateCopied(record, old(MateEntry(record)).value)
      ensures old(MateEntry(record)).Some? && old(MachineTypeOf(record)).Some? &&
              env.mateOrientation(old(MachineTypeOf(record)).value.orientation.value,
                                  MateOrientationFor(old(MateEntry(record)).value.reverse, record.firstOfPair)).Some? ==>
                var mate := old(MateEntry(record)).value;
                var orientation := old(MachineTypeOf(record)).value.orientation.value;
                var mateOrientation := MateOrientationFor(mate.reverse, record.firstOfPair);
                Placed(record, mate, env.mateOrientation(orientation, mateOrientation).value,
                       env.mateUpstream(orientation, mateOrientation), record.readGroup.value, env, r)
      ensures old(MateEntry(record)).Some? && (old(MachineTypeOf(record)).None? ||
              env.mateOrientation(old(MachineTypeOf(record)).value.orientation.value,
                                  MateOrientationFor(old(MateEntry(record)).value.reverse, record.firstOfPair)).None?) ==>
                r.Ok? && PlacementUnchanged(record)
    {
      r := Ok(());
      var entry := MateEntry(record);
      if entry.None? {
        return;
      }
      var mate := entry.value;
      CopyMate(record, mate);
      var mt := MachineTypeOf(record);
      if mt.None? {
        return;
      }
      var rg := record.readGroup.value;
      var orientation := mt.value.orientation.value;
      var mateOrientation := MateOrientationFor(mate.reverse, record.firstOfPair);
      var po := env.mateOrientation(orientation, mateOrientation);
      if po.None? {
        return;
      }
      r := PlaceRead(record, mate, po.value, env.mateUpstream(orientation, mateOrientation), rg, env);
    }
  }

  /** The mate fields an augmented record gets from the stored mate. */
  predicate MateCopied(record: SamRecord, mate: CutRecord)
    reads record
  {
    && record.mateRefIndex == mate.refIndex && record.mateAlignStart == mate.alignStart
    && record.mateReverse == mate.reverse && !record.mateUnmapped && record.mateEnd == Some(mate.alignEnd)
  }

  twostate predicate PlacementUnchanged(record: SamRecord)
    reads record
  {
    && record.refIndex == old(record.refIndex) && record.reverse == old(record.reverse)
    && record.bases == old(record.bases) && record.qualities == old(record.qualities)
    && record.alignStart == old(record.alignStart)
  }

  /** The fragment length used for placing a read: the read group's mean fragment
      length, else the read group's predicted median insert size. */
  function FragmentLength(env: Placement, readGroup: string, predicted: Option<int>): Option<int>
  {
    if env.fragmentMean(readGroup).Some? then env.fragmentMean(readGroup)
    else predicted
  }

  /** An unmapped read placed next to its mate, with the mate expected in orientation
      `po`: it is on the mate's reference; on the reverse strand, with its bases
      reverse-complemented and its qualities reversed, exactly when `po` is R1 or R2;
      and at the projected start clipped to the reference length. Without a fragment
      length the placement stops with an error after the strand change, leaving the
      start as it was. */
  twostate predicate Placed(record: SamRecord, mate: CutRecord, po: PairOrientation, upstream: bool,
                            readGroup: string, env: Placement, new r: Result<(), AugmentError>)
    reads record
  {
    var fragment := FragmentLength(env, readGroup, record.predictedMedianInsertSize);
    && record.refIndex == mate.refIndex
    && record.reverse == (po.R1? || po.R2?)
    && record.bases == (if record.reverse then ReverseComplement(old(record.bases), env.complement) else old(record.bases))
    && record.qualities == (if record.reverse then Reversed(old(record.qualities)) else old(record.qualities))
    && (r.Err? <==> fragment.None?)
    && (r.Err? ==> r.error == NoFragmentSize && record.alignStart == old(record.alignStart))
    && (r.Ok? ==>
          && record.alignStart == Min(env.refLength(mate.refIndex), ProjectedStart(upstream, mate, fragment.value, |record.bases|))
          && record.alignStart <= env.refLength(mate.refIndex))
  }

  /** The placement part of `updateUnmappedRecord`. */
  method PlaceRead(record: SamRecord, mate: CutRecord, po: PairOrientation, upstream: bool,
                   readGroup: string, env: Placement) returns (r: Result<(), AugmentError>)
    modifies record`refIndex, record`reverse, record`bases, record`qualities, record`alignStart
    ensures Placed(record, mate, po, upstream, readGroup, env, r)
  {
    record.refIndex := mate.refIndex;
    if po == F1 || po == F2 {
      record.reverse := false;
    } else {
      record.reverse := true;
      record.bases := ReverseComplement(record.bases, env.complement);
      var q := ReverseQualities(record.qualities);
      record.qualities := q[..];
    }
    var fragment: int;
    var stats := env.fragmentMean(readGroup);
    if stats.Some? {
      fragment := stats.value;
    } else if record.predictedMedianInsertSize.Some? {
      fragment := record.predictedMedianInsertSize.value;
    } else {
      return Err(NoFragmentSize);
    }
    var alignmentStart := ProjectedStart(upstream, mate, fragment, |record.bases|);
    var refLength := env.refLength(record.refIndex);
    record.alignStart := Min(refLength, alignmentStart);
    r := Ok(());
  }

  // ---------------------------------------------------------------------------------
  // Merger

  /** The tables of each augmenter in a list. */
  function StatesOf(augmenters: seq<UnmatedAugmenter>): (r: seq<Tables>)
    reads set a | a in augmenters
    ensures |r| == |augmenters|
    ensures forall i :: 0 <= i < |r| ==> r[i] == augmenters[i].State()
    decreases |augmenters|
  {
    if |augmenters| == 0 then []
    else StatesOf(augmenters[..|augmenters| - 1]) + [augmenters[|augmenters| - 1].State()]
  }

  /** One step of `blend`: an augmenter's entries and counters go into the blend, then
      its maps are cleared. */
  method MergeAndClear(merged: UnmatedAugmenter, au: UnmatedAugmenter)
    requires merged != au && merged.Valid() && au.Valid()
    modifies merged, au
    ensures merged.Valid() && au.Valid()
    ensures merged.State() == MergeTables(old(merged.State()), old(au.State()))
    ensures au.State() == Cleared(old(au.State()))
  {
    merged.Merge(au);
    au.ClearMaps();
  }

  /** The loop of `blend`: each augmenter in list order is merged into the blend and
      has its maps cleared. */
  method MergeAll(merged: UnmatedAugmenter, all: seq<UnmatedAugmenter>)
    requires merged.Valid() && merged.State() == EmptyTables
    requires forall i, j :: 0 <= i < j < |all| ==> all[i] != all[j]
    requires forall i :: 0 <= i < |all| ==> all[i] != merged && all[i].Valid()
    modifies merged, set a | a in all
    ensures merged.Valid() && merged.State() == BlendTables(old(StatesOf(all)))
    ensures forall i :: 0 <= i < |all| ==> all[i].Valid() && all[i].State() == Cleared(old(all[i].State()))
  {
    ghost var before := StatesOf(all);
    for k := 0 to |all|
      invariant merged.Valid() && merged.State() == BlendTables(before[..k])
      invariant forall i :: 0 <= i < k ==> all[i].Valid() && all[i].State() == Cleared(before[i])
      invariant forall i :: k <= i < |all| ==> all[i].Valid() && all[i].State() == before[i]
    {
      assert before[..k + 1][..k] == before[..k];
      MergeAndClear(merged, all[k]);
    }
    assert before[..|all|] == before;
  }

  /** `Merger`: the augmenters created for parallel runs, and the blend of them once it
      has been made. */
  class Merger {
    var augmenters: seq<UnmatedAugmenter>
    var blended: UnmatedAugmenter?

    /** The augmenters are distinct and each keeps its own invariant. */
    ghost predicate Valid()
      reads this, blended, set a | a in augmenters
    {
      && (blended != null ==> blended.Valid())
      && (forall i, j :: 0 <= i < j < |augmenters| ==> augmenters[i] != augmenters[j])
      && (forall i :: 0 <= i < |augmenters| ==> augmenters[i].Valid())
    }

    constructor ()
      ensures Valid() && augmenters == [] && blended == null
    {
      augmenters := [];
      blended := null;
    }

    /** `createUnmatedAugmenter`: a new empty augmenter joins the list. */
    method CreateUnmatedAugmenter() returns (ua: UnmatedAugmenter)
      requires Valid()
      modifies this`augmenters
      ensures Valid()
      ensures fresh(ua) && ua.State() == EmptyTables
      ensures augmenters == old(augmenters) + [ua]
    {
      ua := new UnmatedAugmenter();
      augmenters := augmenters + [ua];
    }

    /** `blend`: the first call merges every augmenter, in list order, into a new one,
        clears each one's maps (its counters stay) and empties the list; every later
        call returns that same augmenter and changes nothing. */
    method Blend() returns (b: UnmatedAugmenter)
      requires Valid()
      modifies this, set a | a in augmenters
      ensures blended == b && b.Valid()
      ensures old(blended) != null ==> b == old(blended) && augmenters == old(augmenters)
      ensures old(blended) != null ==> forall a :: a in old(augmenters) ==> unchanged(a)
      ensures old(blended) == null ==> fresh(b) && augmenters == []
      ensures old(blended) == null ==> b.State() == BlendTables(old(StatesOf(augmenters)))
      ensures old(blended) == null ==>
                forall i :: 0 <= i < |old(augmenters)| ==> old(augmenters)[i].State() == Cleared(old(augmenters[i].State()))
    {
      if blended == null {
        ghost var all := augmenters;
        ghost var states := StatesOf(augmenters);
        var merged := new UnmatedAugmenter();
        assert StatesOf(all) == states;
        MergeAll(merged, augmenters);
        assert merged.State() == BlendTables(states);
        blended := merged;
        augmenters := [];
        assert forall i :: 0 <= i < |all| ==> all[i].State() == Cleared(states[i]);
      }
      b := blended;
    }
  }
}
