/** The output file of the SAM-to-BAM conversion: the given file when its name already
    ends in ".bam", otherwise the same path with ".bam" appended. */
module SamToBam {
  import opened JavaStrings
  import opened FileNames

  function BamOutputFile(path: string): (r: string)
  {
    if EndsWith(Name(path), ".bam") then path else path + ".bam"
  }

  /** The chosen file's name always ends in ".bam", it is the given path or that path
      extended, and choosing again changes nothing. */
  lemma BamOutputFileIsBam(path: string)
    ensures EndsWith(Name(BamOutputFile(path)), ".bam")
    ensures StartsWith(BamOutputFile(path), path)
    ensures BamOutputFile(BamOutputFile(path)) == BamOutputFile(path)
  {
    if !EndsWith(Name(path), ".bam") {
      var r := path + ".bam";
      NameOfAppended(path, ".bam");
      assert Name(r)[|Name(r)| - 4..] == ".bam";
      assert r[..|path|] == path;
    }
  }
}
