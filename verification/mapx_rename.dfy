/** Restoring read names in a mapx file: the header is read up to its column-heading
    line (refusing files in another format or already renamed), the read-id column is
    located in that heading, the header is written back with "read-id" turned into
    "read-name", and every data line gets the name of the read its id denotes in the
    id column. */
module MapxRenaming {
  import opened Wrappers
  import opened JavaStrings
  import opened FileNames

  const RENAME: string := "_rename"

  /* The header texts of the mapx writer. The writer is not part of this model; these
     stand for its constants. */
  const MAPX_OUTPUT_VERSION_HEADER: string := "#MAPX-OUTPUT-VERSION"
  const MAPX_OUTPUT_VERSION: string := "v1.0"
  const MAPX_READ_SDF_ID_HEADER: string := "#READ-SDF-ID"
  const HEADER_COL_NAME_READID: string := "read-id"
  const HEADER_COL_NAME_READNAME: string := "read-name"
  const UNMAPPED_HEADER: string := "#read-id"
  const UNMAPPED_HEADER_READ_NAMES: string := "#read-name"

  // ---------------------------------------------------------------------------------
  // Output file name

  /** The output path when none is given: ".gz" is removed, "X.tsv" becomes
      "X_rename.tsv" and anything else gets "_rename" appended, and ".gz" is put back
      when it was removed. */
  function DefaultOutputName(inPath: string): (r: string)
  {
    var gzipped := IsGzipFilename(inPath);
    var infileName := if gzipped then inPath[..|inPath| - 3] else inPath;
    var outfileName :=
      if EndsWith(infileName, ".tsv") then infileName[..|infileName| - 4] + RENAME + ".tsv"
      else infileName + RENAME;
    if gzipped then outfileName + GZ_SUFFIX else outfileName
  }

  /** The default output is "_rename" longer than the input (so never the input), is
      compressed exactly when the input is, and keeps a ".tsv" extension. */
  lemma DefaultOutputNameShape(inPath: string)
    ensures |DefaultOutputName(inPath)| == |inPath| + |RENAME|
    ensures IsGzipFilename(DefaultOutputName(inPath)) <==> IsGzipFilename(inPath)
    ensures EndsWith(inPath, ".tsv") ==> EndsWith(DefaultOutputName(inPath), ".tsv")
  {
    var gzipped := IsGzipFilename(inPath);
    var p := if gzipped then inPath[..|inPath| - 3] else inPath;
    var out := if EndsWith(p, ".tsv") then p[..|p| - 4] + RENAME + ".tsv" else p + RENAME;
    if EndsWith(p, ".tsv") {
      assert out[|out| - 4..] == ".tsv";
      assert out[|out| - 3..] == "tsv";
    } else {
      assert out[|out| - 3..] == "ame";
    }
    if gzipped {
      assert (out + GZ_SUFFIX)[|out + GZ_SUFFIX| - 3..] == GZ_SUFFIX;
      assert inPath[|inPath| - 1] == 'z';
      assert !EndsWith(inPath, ".tsv");
    }
  }

  // ---------------------------------------------------------------------------------
  // Header

  datatype HeaderError =
    | UnexpectedLine(line: string)
    | UnsupportedFormat(line: string)
    | AlreadyRenamed
    | UnexpectedEof

  /** What reading one header line does: go on, stop (the column headings), or fail. */
  datatype HeaderStep = Continue | Stop | Fail(error: HeaderError)

  /** One step of the header reader: a non-empty line not starting with '#' is
      unexpected; a version line must split into two tab fields, the second the
      supported version; a heading naming read names means the file was renamed
      already; a heading naming read ids ends the header. */
  function StepFor(line: string): (r: HeaderStep)
    ensures r.Stop? ==> |line| > 0 && line[0] == '#'
  {
    if |line| > 0 && !StartsWith(line, "#") then Fail(UnexpectedLine(line))
    else if StartsWith(line, MAPX_OUTPUT_VERSION_HEADER) then
      var parts := Split(line, '\t');
      if |parts| != 2 || parts[1] != MAPX_OUTPUT_VERSION then Fail(UnsupportedFormat(line)) else Continue
    else if (StartsWith(line, "#") && Contains(line, HEADER_COL_NAME_READNAME)) || line == UNMAPPED_HEADER_READ_NAMES then
      Fail(AlreadyRenamed)
    else if (StartsWith(line, "#") && Contains(line, HEADER_COL_NAME_READID)) || line == UNMAPPED_HEADER then
      Stop
    else Continue
  }

  /** A line ending the header is a comment naming read ids and not read names; only a
      non-empty line that is not a comment is refused as unexpected. */
  lemma StepForMeaning(line: string)
    ensures StepFor(line).Stop? ==>
      StartsWith(line, "#") && Contains(line, HEADER_COL_NAME_READID) && !Contains(line, HEADER_COL_NAME_READNAME)
      && !StartsWith(line, MAPX_OUTPUT_VERSION_HEADER)
    ensures StepFor(line).Fail? && StepFor(line).error.UnexpectedLine? <==> |line| > 0 && line[0] != '#'
  {
    if StepFor(line).Stop? {
      StepForStop(line);
    }
    StepForUnexpected(line);
  }

  lemma StepForStop(line: string)
    requires StepFor(line).Stop?
    ensures StartsWith(line, "#") && Contains(line, HEADER_COL_NAME_READID) && !Contains(line, HEADER_COL_NAME_READNAME)
    ensures !StartsWith(line, MAPX_OUTPUT_VERSION_HEADER)
  {
    assert StartsWith(line, "#") by { assert line[..1] == [line[0]]; }
    if line == UNMAPPED_HEADER {
      assert line[1..1 + |HEADER_COL_NAME_READID|] == HEADER_COL_NAME_READID;
      ContainsAt(line, HEADER_COL_NAME_READID, 1);
    }
  }

  lemma StepForUnexpected(line: string)
    ensures StepFor(line).Fail? && StepFor(line).error.UnexpectedLine? <==> |line| > 0 && line[0] != '#'
  {
    if |line| > 0 && line[0] != '#' {
      assert !StartsWith(line, "#");
    }
  }

  /** The number of header lines, or how reading the header fails (running out of
      lines before the column headings is an error). */
  function HeaderLength(lines: seq<string>): (r: Result<nat, HeaderError>)
    ensures r.Ok? ==> 1 <= r.value <= |lines| && StepFor(lines[r.value - 1]).Stop?
    decreases |lines|
  {
    if |lines| == 0 then Err(UnexpectedEof)
    else match StepFor(lines[0])
      case Stop => Ok(1)
      case Fail(e) => Err(e)
      case Continue =>
        match HeaderLength(lines[1..])
        case Ok(n) => Ok(n + 1)
        case Err(e) => Err(e)
  }

  /** A header is a run of lines that go on, ended by the first line that stops; an
      error is that of the first line that fails, or the end of the input. */
  lemma {:induction false} HeaderLengthMeaning(lines: seq<string>)
    ensures HeaderLength(lines).Ok? ==>
      forall j :: 0 <= j < HeaderLength(lines).value - 1 ==> StepFor(lines[j]).Continue?
    ensures HeaderLength(lines) == Err(UnexpectedEof) ==> forall j :: 0 <= j < |lines| ==> StepFor(lines[j]).Continue?
    ensures HeaderLength(lines).Err? && HeaderLength(lines).error != UnexpectedEof ==>
      exists k :: 0 <= k < |lines| && StepFor(lines[k]) == Fail(HeaderLength(lines).error)
        && forall j :: 0 <= j < k ==> StepFor(lines[j]).Continue?
    decreases |lines|
  {
    if |lines| > 0 && StepFor(lines[0]).Continue? {
      var rest := lines[1..];
      HeaderLengthMeaning(rest);
      if HeaderLength(rest).Err? && HeaderLength(rest).error != UnexpectedEof {
        var k :| 0 <= k < |rest| && StepFor(rest[k]) == Fail(HeaderLength(rest).error)
          && forall j :: 0 <= j < k ==> StepFor(rest[j]).Continue?;
        assert StepFor(lines[k + 1]) == Fail(HeaderLength(lines).error);
        assert forall j :: 0 <= j < k + 1 ==> StepFor(lines[j]).Continue? by {
          forall j | 0 <= j < k + 1 ensures StepFor(lines[j]).Continue? {
            if j > 0 { assert lines[j] == rest[j - 1]; }
          }
        }
      }
      if HeaderLength(rest) == Err(UnexpectedEof) {
        forall j | 0 <= j < |lines| ensures StepFor(lines[j]).Continue? {
          if j > 0 { assert lines[j] == rest[j - 1]; }
        }
      }
    }
  }

  /** Skipping a line that goes on shifts the header length by one. */
  lemma HeaderLengthSkip(lines: seq<string>, i: nat)
    requires i < |lines| && StepFor(lines[i]).Continue?
    ensures HeaderLength(lines[i..]) ==
      match HeaderLength(lines[i + 1..])
      case Ok(n) => Ok(n + 1)
      case Err(e) => Err(e)
  {
    assert lines[i..][1..] == lines[i + 1..];
  }

  /** `readHeader`: the lines up to and including the column headings. */
  method ReadHeader(lines: seq<string>) returns (r: Result<seq<string>, HeaderError>)
    ensures HeaderLength(lines).Ok? ==> r == Ok(lines[..HeaderLength(lines).value])
    ensures HeaderLength(lines).Err? ==> r == Err(HeaderLength(lines).error)
  {
    var header: seq<string> := [];
    var i := 0;
    while i < |lines|
      invariant i <= |lines| && header == lines[..i]
      invariant HeaderLength(lines) ==
        match HeaderLength(lines[i..])
        case Ok(n) => Ok(n + i)
        case Err(e) => Err(e)
    {
      var line := lines[i];
      header := header + [line];
      assert lines[i..][0] == line && header == lines[..i + 1];
      var step := StepFor(line);
      match step
      case Fail(e) =>
        assert HeaderLength(lines[i..]) == Err(e);
        return Err(e);
      case Stop =>
        assert HeaderLength(lines[i..]) == Ok(1);
        return Ok(header);
      case Continue =>
        HeaderLengthSkip(lines, i);
        i := i + 1;
    }
    assert lines[i..] == [];
    return Err(UnexpectedEof);
  }

  /** `writeModifiedHeader`: every header line unchanged but the last, in which
      "read-id" becomes "read-name". */
  function ModifiedHeader(header: seq<string>): (r: seq<string>)
    requires |header| > 0
  {
    header[..|header| - 1] + [ReplaceAll(header[|header| - 1], "read-id", "read-name")]
  }

  method WriteModifiedHeader(header: seq<string>) returns (written: seq<string>)
    requires |header| > 0
    ensures written == ModifiedHeader(header)
  {
    written := [];
    for i := 0 to |header| - 1
      invariant written == header[..i]
    {
      written := written + [header[i]];
    }
    written := written + [ReplaceAll(header[|header| - 1], "read-id", "read-name")];
  }

  /** A renamed file is refused when renamed again: the rewritten column-heading line
      reads as a heading of read names. */
  lemma RenamedHeadingRefused(heading: string)
    requires StepFor(heading).Stop?
    ensures StepFor(ReplaceAll(heading, "read-id", "read-name")) == Fail(AlreadyRenamed)
  {
    StepForMeaning(heading);
    var out := ReplaceAll(heading, "read-id", "read-name");
    ReplaceAllIntroduces(heading, "read-id", "read-name");
    ReplaceAllKeepsPrefix(heading, "read-id", "read-name", "#");
    ReplaceAllKeepsPrefix(heading, "read-id", "read-name", MAPX_OUTPUT_VERSION_HEADER);
    assert |out| > 0 by { var i := ContainsWitness(out, "read-name"); }
  }

  /** The header of a renamed file, followed by anything, is refused as renamed
      already. */
  lemma RenamedFileRefused(lines: seq<string>, rest: seq<string>)
    requires HeaderLength(lines).Ok?
    ensures HeaderLength(ModifiedHeader(lines[..HeaderLength(lines).value]) + rest) == Err(AlreadyRenamed)
  {
    HeaderLengthMeaning(lines);
    var n := HeaderLength(lines).value;
    var out := ModifiedHeader(lines[..n]) + rest;
    RenamedHeadingRefused(lines[n - 1]);
    assert StepFor(out[n - 1]) == Fail(AlreadyRenamed);
    assert forall j :: 0 <= j < n - 1 ==> out[j] == lines[j];
    RefusedAfterContinue(out, n - 1);
  }

  lemma {:induction false} RefusedAfterContinue(lines: seq<string>, k: nat)
    requires k < |lines| && StepFor(lines[k]).Fail?
    requires forall j :: 0 <= j < k ==> StepFor(lines[j]).Continue?
    ensures HeaderLength(lines) == Err(StepFor(lines[k]).error)
    decreases k
  {
    if k > 0 {
      assert lines[1..][k - 1] == lines[k];
      RefusedAfterContinue(lines[1..], k - 1);
    }
  }

  // ---------------------------------------------------------------------------------
  // Read SDF id

  /** The read SDF id of the header: the text after the tab of the first line naming
      it, or the id 0 when no line does. */
  datatype ReadSdfId = SdfIdText(text: string) | SdfIdZero

  const SDF_ID_PREFIX: string := MAPX_READ_SDF_ID_HEADER + "\t"

  function SdfIdOf(header: seq<string>): (r: ReadSdfId)
    decreases |header|
  {
    if |header| == 0 then SdfIdZero
    else if StartsWith(header[0], SDF_ID_PREFIX) then SdfIdText(header[0][IndexOf(header[0], '\t') + 1..])
    else SdfIdOf(header[1..])
  }

  /** The id is 0 exactly when no line starts with the SDF-id header and a tab;
      otherwise it is the rest of the first such line after that prefix. */
  lemma {:induction false} SdfIdOfMeaning(header: seq<string>)
    ensures SdfIdOf(header).SdfIdZero? <==> forall k :: 0 <= k < |header| ==> !StartsWith(header[k], SDF_ID_PREFIX)
    ensures SdfIdOf(header).SdfIdText? ==>
      exists k :: 0 <= k < |header| && StartsWith(header[k], SDF_ID_PREFIX)
        && (forall j :: 0 <= j < k ==> !StartsWith(header[j], SDF_ID_PREFIX))
        && SdfIdOf(header).text == header[k][|SDF_ID_PREFIX|..]
    decreases |header|
  {
    if |header| > 0 {
      var line := header[0];
      if StartsWith(line, SDF_ID_PREFIX) {
        var t := IndexOf(line, '\t');
        assert line[|SDF_ID_PREFIX| - 1] == '\t';
        assert '\t' !in line[..|SDF_ID_PREFIX| - 1] by {
          assert line[..|SDF_ID_PREFIX| - 1] == MAPX_READ_SDF_ID_HEADER;
        }
      } else {
        SdfIdOfMeaning(header[1..]);
        if SdfIdOf(header).SdfIdText? {
          var k :| 0 <= k < |header[1..]| && StartsWith(header[1..][k], SDF_ID_PREFIX)
            && (forall j :: 0 <= j < k ==> !StartsWith(header[1..][j], SDF_ID_PREFIX))
            && SdfIdOf(header[1..]).text == header[1..][k][|SDF_ID_PREFIX|..];
          assert forall j :: 0 <= j < k + 1 ==> !StartsWith(header[j], SDF_ID_PREFIX) by {
            forall j | 0 <= j < k + 1 ensures !StartsWith(header[j], SDF_ID_PREFIX) {
              if j > 0 { assert header[j] == header[1..][j - 1]; }
            }
          }
          assert header[k + 1] == header[1..][k];
        } else {
          forall k | 0 <= k < |header| ensures !StartsWith(header[k], SDF_ID_PREFIX) {
            if k > 0 { assert header[k] == header[1..][k - 1]; }
          }
        }
      }
    }
  }

  // ---------------------------------------------------------------------------------
  // Id column

  /** The first column heading equal to "read-id". */
  function IdColumn(headings: seq<string>): (r: Option<nat>)
    ensures r.None? <==> HEADER_COL_NAME_READID !in headings
    ensures r.Some? ==>
      r.value < |headings| && headings[r.value] == HEADER_COL_NAME_READID
      && HEADER_COL_NAME_READID !in headings[..r.value]
    decreases |headings|
  {
    if |headings| == 0 then None
    else if headings[0] == HEADER_COL_NAME_READID then Some(0)
    else
      match IdColumn(headings[1..])
      case None =>
        assert forall h :: h in headings ==> h == headings[0] || h in headings[1..];
        None
      case Some(i) =>
        assert headings[..i + 1] == [headings[0]] + headings[1..][..i];
        Some(i + 1)
  }

  /** The search of the column headings, stopping at the first match. */
  method FindIdColumn(headings: seq<string>) returns (idColumn: Option<nat>)
    ensures idColumn == IdColumn(headings)
  {
    idColumn := None;
    for i := 0 to |headings|
      invariant HEADER_COL_NAME_READID !in headings[..i]
    {
      if headings[i] == HEADER_COL_NAME_READID {
        idColumn := Some(i);
        return;
      }
      assert headings[..i + 1] == headings[..i] + [headings[i]];
    }
    assert headings[..|headings|] == headings;
  }

  // ---------------------------------------------------------------------------------
  // Data lines

  datatype RenameError = NotANumber(field: string) | NoSuchRead(readId: int)

  /** The fields with the read id in field `id` replaced by that read's name. */
  function ReplacedFields(parts: seq<string>, id: nat, names: seq<string>): (r: Result<seq<string>, RenameError>)
    requires id < |parts|
  {
    match ParseInt(parts[id])
    case None => Err(NotANumber(parts[id]))
    case Some(readId) =>
      if 0 <= readId < |names| then Ok(parts[id := names[readId]]) else Err(NoSuchRead(readId))
  }

  /** `replaceIdWithName`: overwrites field `id` with the name and joins the fields. */
  method ReplaceIdWithName(parts: array<string>, id: nat, sep: char, names: seq<string>) returns (r: Result<string, RenameError>)
    requires id < parts.Length
    modifies parts
    ensures ReplacedFields(old(parts[..]), id, names).Err? ==>
      r == Err(ReplacedFields(old(parts[..]), id, names).error) && parts[..] == old(parts[..])
    ensures ReplacedFields(old(parts[..]), id, names).Ok? ==>
      parts[..] == ReplacedFields(old(parts[..]), id, names).value && r == Ok(Join(parts[..], sep))
  {
    var readId := ParseInt(parts[id]);
    if readId.None? {
      return Err(NotANumber(parts[id]));
    }
    if !(0 <= readId.value < |names|) {
      return Err(NoSuchRead(readId.value));
    }
    ghost var before := parts[..];
    parts[id] := names[readId.value];
    assert parts[..] == before[id := names[readId.value]];
    assert ReplacedFields(before, id, names) == Ok(before[id := names[readId.value]]);
    var sb := "";
    for k := 0 to parts.Length
      invariant parts[..] == before[id := names[readId.value]]
      invariant sb == Join(parts[..k], sep)
    {
      assert parts[..k + 1] == parts[..k] + [parts[k]];
      JoinSnoc(parts[..k], parts[k], sep);
      if k != 0 {
        sb := sb + [sep];
      }
      sb := sb + parts[k];
    }
    assert parts[..parts.Length] == parts[..];
    return Ok(sb);
  }

  /** The line rewritten from its fields. */
  function Rewrite(parts: seq<string>, id: nat, sep: char, names: seq<string>): (r: Result<string, RenameError>)
    requires id < |parts|
  {
    match ReplacedFields(parts, id, names)
    case Ok(fields) => Ok(Join(fields, sep))
    case Err(e) => Err(e)
  }

  /** A rewritten line has as many fields as before, all unchanged but the id field,
      which holds the read's name, when that name has no separator in it. */
  lemma RewriteKeepsFields(line: string, id: nat, sep: char, names: seq<string>)
    requires id < |Split(line, sep)| && ReplacedFields(Split(line, sep), id, names).Ok?
    requires sep !in ReplacedFields(Split(line, sep), id, names).value[id]
    ensures Split(line, sep)[id] != "" && ParseInt(Split(line, sep)[id]).Some?
    ensures var parts := Split(line, sep);
      var out := Fields(Rewrite(parts, id, sep, names).value, sep);
      |out| == |parts| && out[id] == names[ParseInt(parts[id]).value]
      && forall k :: 0 <= k < |parts| && k != id ==> out[k] == parts[k]
  {
    var parts := Split(line, sep);
    var fields := ReplacedFields(parts, id, names).value;
    SplitIsFieldPrefix(line, sep);
    assert forall k :: 0 <= k < |fields| ==> sep !in fields[k] by {
      forall k | 0 <= k < |fields| ensures sep !in fields[k] {
        if k != id { assert fields[k] == parts[k]; }
      }
    }
    FieldsOfJoin(fields, sep);
  }

  /** The rewriting of one data line: empty lines pass; a comment passes unless it is a
      "#read " line of exactly eight space-separated fields, whose second field is the
      id; any other line has its id column rewritten when it has that many fields. */
  function RenamedLine(line: string, idColumn: nat, names: seq<string>): (r: Result<string, RenameError>)
  {
    if |line| == 0 then Ok(line)
    else if line[0] == '#' then
      if StartsWith(line, "#read ") then
        var parts := Split(line, ' ');
        if |parts| == 8 then Rewrite(parts, 1, ' ', names) else Ok(line)
      else Ok(line)
    else
      var parts := Split(line, '\t');
      if |parts| > idColumn then Rewrite(parts, idColumn, '\t', names) else Ok(line)
  }

  /** The lines left as they are, whatever the names: empty lines, data lines with no
      field in the id column, and comments other than eight-field "#read " lines. */
  lemma PassThrough(line: string, idColumn: nat, names: seq<string>)
    requires |line| == 0
      || (line[0] != '#' && |Split(line, '\t')| <= idColumn)
      || (line[0] == '#' && (!StartsWith(line, "#read ") || |Split(line, ' ')| != 8))
    ensures RenamedLine(line, idColumn, names) == Ok(line)
  {
  }

  /** Any line that changes is rewritten from its fields: it had the id column (or the
      "#read " id) and the id there names a read. */
  lemma ChangedLineHadId(line: string, idColumn: nat, names: seq<string>)
    requires RenamedLine(line, idColumn, names).Ok? && RenamedLine(line, idColumn, names).value != line
    ensures |line| > 0
    ensures line[0] != '#' ==>
      |Split(line, '\t')| > idColumn
      && ReplacedFields(Split(line, '\t'), idColumn, names).Ok?
      && RenamedLine(line, idColumn, names).value == Join(ReplacedFields(Split(line, '\t'), idColumn, names).value, '\t')
    ensures line[0] == '#' ==>
      StartsWith(line, "#read ") && |Split(line, ' ')| == 8
      && ReplacedFields(Split(line, ' '), 1, names).Ok?
  {
  }

  /** A data line as the loop of `renameFile` treats it. */
  method RenameLine(line: string, idColumn: nat, names: seq<string>) returns (r: Result<string, RenameError>)
    ensures r == RenamedLine(line, idColumn, names)
  {
    r := Ok(line);
    if |line| > 0 {
      if line[0] == '#' {
        if StartsWith(line, "#read ") {
          var parts := Split(line, ' ');
          if |parts| == 8 {
            var a := new string[|parts|](k requires 0 <= k < |parts| => parts[k]);
            assert a[..] == parts;
            r := ReplaceIdWithName(a, 1, ' ', names);
          }
        }
      } else {
        var parts := Split(line, '\t');
        if |parts| > idColumn {
          var a := new string[|parts|](k requires 0 <= k < |parts| => parts[k]);
          assert a[..] == parts;
          r := ReplaceIdWithName(a, idColumn, '\t', names);
        }
      }
    }
  }

  /** All data lines rewritten, or the error of the first one that fails. */
  function RenamedLines(lines: seq<string>, idColumn: nat, names: seq<string>): (r: Result<seq<string>, RenameError>)
    ensures r.Ok? ==> |r.value| == |lines|
    decreases |lines|
  {
    if |lines| == 0 then Ok([])
    else match RenamedLine(lines[0], idColumn, names)
      case Err(e) => Err(e)
      case Ok(first) =>
        match RenamedLines(lines[1..], idColumn, names)
        case Err(e) => Err(e)
        case Ok(rest) => Ok([first] + rest)
  }

  lemma RenamedLinesSnoc(lines: seq<string>, idColumn: nat, names: seq<string>, i: nat)
    requires i < |lines| && RenamedLines(lines[..i], idColumn, names).Ok?
    ensures RenamedLines(lines[..i + 1], idColumn, names) ==
      match RenamedLine(lines[i], idColumn, names)
      case Err(e) => Err(e)
      case Ok(l) => Ok(RenamedLines(lines[..i], idColumn, names).value + [l])
    decreases i
  {
    if i == 0 {
      assert lines[..1][1..] == [] && lines[..0] == [];
      assert lines[..1][0] == lines[0];
      match RenamedLine(lines[0], idColumn, names)
      case Err(e) =>
      case Ok(l) =>
        assert [l] + [] == [] + [l];
    } else {
      assert lines[..i + 1][1..] == lines[1..][..i];
      assert lines[..i][1..] == lines[1..][..i - 1];
      assert lines[..i + 1][0] == lines[..i][0] == lines[0];
      RenamedLinesSnoc(lines[1..], idColumn, names, i - 1);
      var rest := RenamedLines(lines[1..][..i - 1], idColumn, names).value;
      var first := RenamedLine(lines[0], idColumn, names).value;
      assert RenamedLines(lines[..i], idColumn, names).value == [first] + rest;
      match RenamedLine(lines[i], idColumn, names)
      case Err(e) =>
      case Ok(l) =>
        assert [first] + (rest + [l]) == ([first] + rest) + [l];
    }
  }

  /** The loop over the data lines of `renameFile`. */
  method RenameDataLines(lines: seq<string>, idColumn: nat, names: seq<string>) returns (r: Result<seq<string>, RenameError>)
    ensures r == RenamedLines(lines, idColumn, names)
  {
    var out: seq<string> := [];
    var i := 0;
    while i < |lines|
      invariant i <= |lines| && RenamedLines(lines[..i], idColumn, names) == Ok(out)
    {
      var line := RenameLine(lines[i], idColumn, names);
      RenamedLinesSnoc(lines, idColumn, names, i);
      if line.Err? {
        RenamedLinesErrPersists(lines, idColumn, names, i + 1);
        return Err(line.error);
      }
      out := out + [line.value];
      i := i + 1;
    }
    assert lines[..i] == lines;
    return Ok(out);
  }

  lemma {:induction false} RenamedLinesErrPersists(lines: seq<string>, idColumn: nat, names: seq<string>, i: nat)
    requires i <= |lines| && RenamedLines(lines[..i], idColumn, names).Err?
    ensures RenamedLines(lines, idColumn, names) == RenamedLines(lines[..i], idColumn, names)
    decreases i
  {
    if i > 0 && |lines| > 0 {
      assert lines[..i][0] == lines[0];
      assert lines[..i][1..] == lines[1..][..i - 1];
      if RenamedLine(lines[0], idColumn, names).Ok? {
        RenamedLinesErrPersists(lines[1..], idColumn, names, i - 1);
      }
    }
  }

  // ---------------------------------------------------------------------------------
  // The whole file

  datatype MapxError =
    | Header(headerError: HeaderError)
    | UnrecognizedColumnHeader(colHeader: string)
    | MalformedSdfId(sdfIdText: string)
    | SdfIdMismatch
    | Rename(renameError: RenameError)

  /** `renameFile`: the input's lines become the modified header and the renamed data
      lines. Whether the text of the header's SDF id is a number is the parameter
      `sdfIdParses`, and whether that id matches the reads the parameter `sdfIdMatches`. */
  method RenameFile(lines: seq<string>, names: seq<string>, sdfIdParses: string -> bool, sdfIdMatches: ReadSdfId -> bool)
    returns (r: Result<seq<string>, MapxError>)
    ensures HeaderLength(lines).Err? ==> r == Err(Header(HeaderLength(lines).error))
    ensures HeaderLength(lines).Ok? ==>
      var n := HeaderLength(lines).value;
      var colHeader := lines[n - 1][1..];
      var idColumn := IdColumn(Split(colHeader, '\t'));
      var sdfId := SdfIdOf(lines[..n]);
      var malformed := sdfId.SdfIdText? && !sdfIdParses(sdfId.text);
      1 <= n <= |lines|
      && (idColumn.None? ==> r == Err(UnrecognizedColumnHeader(colHeader)))
      && (idColumn.Some? && malformed ==> r == Err(MalformedSdfId(sdfId.text)))
      && (idColumn.Some? && !malformed && !sdfIdMatches(sdfId) ==> r == Err(SdfIdMismatch))
      && (idColumn.Some? && !malformed && sdfIdMatches(sdfId) ==>
          match RenamedLines(lines[n..], idColumn.value, names)
          case Err(e) => r == Err(Rename(e))
          case Ok(body) => r == Ok(ModifiedHeader(lines[..n]) + body))
  {
    HeaderLengthMeaning(lines);
    var header := ReadHeader(lines);
    if header.Err? {
      return Err(Header(header.error));
    }
    var h := header.value;
    StepForMeaning(h[|h| - 1]);
    var colHeader := h[|h| - 1][1..];
    var colHeadings := Split(colHeader, '\t');
    var idColumn := FindIdColumn(colHeadings);
    if idColumn.None? {
      return Err(UnrecognizedColumnHeader(colHeader));
    }
    var sdfId := SdfIdOf(h);
    if sdfId.SdfIdText? && !sdfIdParses(sdfId.text) {
      return Err(MalformedSdfId(sdfId.text));
    }
    if !sdfIdMatches(sdfId) {
      return Err(SdfIdMismatch);
    }
    var written := WriteModifiedHeader(h);
    var body := RenameDataLines(lines[|h|..], idColumn.value, names);
    if body.Err? {
      return Err(Rename(body.error));
    }
    return Ok(written + body.value);
  }
}
