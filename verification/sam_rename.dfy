/** Renaming the read ids of a SAM file back to the read names held in the reads SDF:
    the output file name the command chooses, the read-id offset of a restricted read
    range, the checks each numeric read id goes through, and the choice of the name
    list (one list for single-end reads, the left or right list for paired reads). */
module SamRenaming {
  import opened Wrappers
  import opened JavaStrings
  import opened FileNames

  const RENAME: string := "_rename"

  // ---------------------------------------------------------------------------------
  // Output file name

  /** The name given with `--output`: ".gz" is added when compressing, unless the name
      is already a gzip name or a BAM name. */
  function ExplicitOutputName(fileName: string, gzipOutput: bool): (r: string)
  {
    if !IsGzipFilename(fileName) && !EndsWith(fileName, ".bam") && gzipOutput then
      fileName + GZ_SUFFIX
    else
      fileName
  }

  /** The explicit name is kept as a prefix, stays a BAM name exactly when it was one,
      and ends up a gzip name exactly when it was one or compression was asked for
      on a name that is not BAM. */
  lemma ExplicitOutputNameShape(fileName: string, gzipOutput: bool)
    ensures StartsWith(ExplicitOutputName(fileName, gzipOutput), fileName)
    ensures EndsWith(ExplicitOutputName(fileName, gzipOutput), ".bam") <==> EndsWith(fileName, ".bam")
    ensures IsGzipFilename(ExplicitOutputName(fileName, gzipOutput))
        <==> IsGzipFilename(fileName) || (gzipOutput && !EndsWith(fileName, ".bam"))
  {
    if ExplicitOutputName(fileName, gzipOutput) != fileName {
      AppendGzip(fileName);
    }
  }

  /** The input path with a trailing ".gz" removed. */
  function StripGzip(path: string): (r: string)
  {
    if IsGzipFilename(path) then path[..|path| - 3] else path
  }

  /** The part of the default output name before "_rename", for an input path without
      ".gz". */
  function Stem(infileName: string): (r: string)
  {
    if EndsWith(infileName, ".sam") || EndsWith(infileName, ".bam") then infileName[..|infileName| - 4]
    else infileName
  }

  /** "X.sam" and "X.bam" become "X_rename.sam" and "X_rename.bam"; anything else gets
      "_rename" appended. */
  function RenamedPath(infileName: string): (r: string)
  {
    if EndsWith(infileName, ".sam") then infileName[..|infileName| - 4] + RENAME + ".sam"
    else if EndsWith(infileName, ".bam") then infileName[..|infileName| - 4] + RENAME + ".bam"
    else infileName + RENAME
  }

  /** The output path when none is given: the input path without ".gz", renamed, with
      ".gz" added when compressing a name that is not BAM. */
  function DefaultOutputName(inPath: string, gzipOutput: bool): (r: string)
  {
    var outfileName := RenamedPath(StripGzip(inPath));
    if gzipOutput && !EndsWith(outfileName, ".bam") then outfileName + GZ_SUFFIX else outfileName
  }

  /** The renamed path is seven characters longer, begins with the stem and "_rename",
      keeps a BAM extension exactly when there was one, and is never a gzip name. */
  lemma RenamedPathShape(p: string)
    ensures |RenamedPath(p)| == |p| + |RENAME|
    ensures StartsWith(RenamedPath(p), Stem(p) + RENAME)
    ensures EndsWith(RenamedPath(p), ".bam") <==> EndsWith(p, ".bam")
    ensures !IsGzipFilename(RenamedPath(p))
  {
    var out := RenamedPath(p);
    assert out[..|Stem(p) + RENAME|] == Stem(p) + RENAME;
    if EndsWith(p, ".sam") {
      assert out[|out| - 4..] == ".sam";
      assert out[|out| - 3..] == "sam";
    } else if EndsWith(p, ".bam") {
      assert out[|out| - 4..] == ".bam";
      assert out[|out| - 3..] == "bam";
    } else {
      assert out[|out| - 4..] == "name";
      assert out[|out| - 3..] == "ame";
    }
  }

  /** Appending ".gz" keeps the name as a prefix and makes a gzip name that is not BAM. */
  lemma AppendGzip(s: string)
    ensures StartsWith(s + GZ_SUFFIX, s)
    ensures IsGzipFilename(s + GZ_SUFFIX) && !EndsWith(s + GZ_SUFFIX, ".bam")
  {
    var r := s + GZ_SUFFIX;
    assert r[..|s|] == s;
    assert r[|r| - 3..] == GZ_SUFFIX;
    assert r[|r| - 1] == 'z';
  }

  /** The default output name is longer than the input (so never overwrites it), begins
      with the stem and "_rename", is a BAM name exactly when the input (without ".gz")
      is, and is compressed exactly when compression is on and it is not BAM. */
  lemma DefaultOutputNameShape(inPath: string, gzipOutput: bool)
    ensures |DefaultOutputName(inPath, gzipOutput)| > |inPath|
    ensures StartsWith(DefaultOutputName(inPath, gzipOutput), Stem(StripGzip(inPath)) + RENAME)
    ensures EndsWith(DefaultOutputName(inPath, gzipOutput), ".bam") <==> EndsWith(StripGzip(inPath), ".bam")
    ensures IsGzipFilename(DefaultOutputName(inPath, gzipOutput))
        <==> gzipOutput && !EndsWith(StripGzip(inPath), ".bam")
  {
    var p := StripGzip(inPath);
    var out := RenamedPath(p);
    RenamedPathShape(p);
    AppendGzip(out);
    var prefix := Stem(p) + RENAME;
    assert (out + GZ_SUFFIX)[..|prefix|] == out[..|prefix|];
  }

  // ---------------------------------------------------------------------------------
  // Read ids

  /** The read range: 64-bit bounds, a bound that is not given being negative. */
  datatype Region = Region(start: int, end: int)

  /** The names of the reads SDF: one list, or the left and right lists of a paired SDF. */
  datatype SdfNames = Single(names: seq<string>) | Paired(left: seq<string>, right: seq<string>)

  /** The fields of a SAM record the renaming reads or writes. */
  datatype SamLine = SamLine(readName: string, paired: bool, firstOfPair: bool)

  datatype RenameError =
    | IdsNotNumbers
    | IdsNegative
    | IdsBelowRange
    | IdsAboveRange
    | IdsAboveSdf
    | NotPaired  // the first-of-pair flag asked of a record that is not paired

  /** The error category reported: a malformed SAM file, or bad information given. */
  predicate IsSamBadFormat(e: RenameError)
  {
    e.IdsNotNumbers? || e.IdsNegative?
  }

  function Message(e: RenameError): string
  {
    match e
    case IdsNotNumbers => "The read ids are not numbers."
    case IdsNegative => "The read ids are negative."
    case IdsBelowRange => "SAM file contains read ids lower than the read range given."
    case IdsAboveRange => "SAM file contains read ids higher than the read range given."
    case IdsAboveSdf => "SAM file contains read ids higher than the reads SDF contains."
    case NotPaired => "Inappropriate call if not paired read"
  }

  /** The id of the first read of the range: the range start when it is positive (cast
      to a 32-bit int), otherwise 0. */
  function NameOffset(region: Region): (offset: int)
    ensures INT_MIN <= offset <= INT_MAX
    ensures region.start <= 0 ==> offset == 0
    ensures 0 < region.start <= INT_MAX ==> offset == region.start
  {
    if region.start > 0 then IntCast(region.start) else 0
  }

  /** The name list a record takes its name from. */
  function NamesFor(names: SdfNames, firstOfPair: bool): seq<string>
  {
    match names
    case Single(list) => list
    case Paired(left, right) => if firstOfPair then left else right
  }

  /** The SDF name of the read a record's numeric read name denotes, or the first check
      it fails: not a number, negative, below the range, at or above the range end,
      a record without the paired flag against a paired SDF (whose first-of-pair flag
      cannot be asked), beyond the names of the SDF. */
  function ResolveName(line: SamLine, region: Region, names: SdfNames): (r: Result<string, RenameError>)
  {
    match ParseInt(line.readName)
    case None => Err(IdsNotNumbers)
    case Some(samIndex) =>
      var nameIndex := IntCast(samIndex - NameOffset(region));
      if samIndex < 0 then Err(IdsNegative)
      else if nameIndex < 0 then Err(IdsBelowRange)
      else if region.end > 0 && samIndex >= region.end then Err(IdsAboveRange)
      else if names.Paired? && !line.paired then Err(NotPaired)
      else
        var list := NamesFor(names, line.firstOfPair);
        if nameIndex >= |list| then Err(IdsAboveSdf) else Ok(list[nameIndex])
  }

  /** The start of a range is at most the largest 32-bit int. */
  predicate InIntRange(region: Region)
  {
    region.start <= INT_MAX
  }

  /** Within a 32-bit range, a resolved name is the entry of the chosen list at the
      read id minus the range start, and the read id lies inside the range. */
  lemma ResolvedNameIsEntry(line: SamLine, region: Region, names: SdfNames)
    requires InIntRange(region) && ResolveName(line, region, names).Ok?
    ensures ParseInt(line.readName).Some?
    ensures var id := ParseInt(line.readName).value;
      var offset := if region.start > 0 then region.start else 0;
      offset <= id && (region.end > 0 ==> id < region.end)
      && id - offset < |NamesFor(names, line.firstOfPair)|
      && ResolveName(line, region, names).value == NamesFor(names, line.firstOfPair)[id - offset]
    ensures names.Paired? ==> line.paired
  {
  }

  /** Against a paired SDF a record without the paired flag never resolves: once its id
      passes the number and range checks, the first-of-pair question fails. */
  lemma UnpairedRecordRefused(line: SamLine, region: Region, names: SdfNames)
    requires names.Paired? && !line.paired
    ensures ResolveName(line, region, names).Err?
    ensures ResolveName(line, region, names).error != IdsAboveSdf
    ensures ParseInt(line.readName).Some? && ParseInt(line.readName).value >= 0
        && IntCast(ParseInt(line.readName).value - NameOffset(region)) >= 0
        && (region.end <= 0 || ParseInt(line.readName).value < region.end)
        ==> ResolveName(line, region, names) == Err(NotPaired)
  {
  }

  /** The checks apply in order: a non-numeric name and a negative id are reported as a
      badly formatted SAM file whatever the range and the names, and only those two are. */
  lemma BadFormatFirst(line: SamLine, region: Region, names: SdfNames)
    ensures ParseInt(line.readName).None? ==> ResolveName(line, region, names) == Err(IdsNotNumbers)
    ensures ParseInt(line.readName).Some? && ParseInt(line.readName).value < 0
        ==> ResolveName(line, region, names) == Err(IdsNegative)
    ensures ResolveName(line, region, names).Err? && IsSamBadFormat(ResolveName(line, region, names).error)
        <==> ParseInt(line.readName).None? || ParseInt(line.readName).value < 0
  {
  }

  /** Renaming inverts the numbering: the decimal id of the k-th read of a range names
      entry k of the list the record takes its name from, unless a paired SDF meets a
      record without the paired flag. */
  lemma ResolveNumberedRead(line: SamLine, region: Region, names: SdfNames, k: nat)
    requires 0 <= region.start && region.start + k <= INT_MAX
    requires region.end <= 0 || region.start + k < region.end
    requires k < |NamesFor(names, line.firstOfPair)|
    requires line.readName == NatToString(region.start + k)
    ensures ResolveName(line, region, names)
        == if names.Paired? && !line.paired then Err(NotPaired) else Ok(NamesFor(names, line.firstOfPair)[k])
  {
    var id := region.start + k;
    ParseNatToString(id);
    assert ParseInt(line.readName) == Some(id);
    assert NameOffset(region) == region.start;
    assert IntCast(id - NameOffset(region)) == k;
  }

  /** The renaming loop: each record in turn gets the SAM form of its SDF name (the
      `samReadName` conversion is the parameter) and is written out; the first record
      failing a check stops the run with that check's error. */
  method RenameRecords(records: seq<SamLine>, region: Region, names: SdfNames, samReadName: (string, bool) -> string)
    returns (written: seq<SamLine>, err: Option<RenameError>)
    ensures |written| <= |records|
    ensures forall i :: 0 <= i < |written| ==>
      ResolveName(records[i], region, names).Ok?
      && written[i] == records[i].(readName := samReadName(ResolveName(records[i], region, names).value, records[i].paired))
    ensures err.None? ==> |written| == |records|
    ensures err.Some? ==> |written| < |records| && ResolveName(records[|written|], region, names) == Err(err.value)
  {
    written := [];
    var i := 0;
    while i < |records|
      invariant i == |written| <= |records|
      invariant forall j :: 0 <= j < i ==>
        ResolveName(records[j], region, names).Ok?
        && written[j] == records[j].(readName := samReadName(ResolveName(records[j], region, names).value, records[j].paired))
    {
      var line := records[i];
      var name := ResolveName(line, region, names);
      if name.Err? {
        return written, Some(name.error);
      }
      written := written + [line.(readName := samReadName(name.value, line.paired))];
      i := i + 1;
    }
    err := None;
  }
}
