/** The file-name helpers the renaming and conversion commands share: the gzip suffix
    test and `File.getName`, the part of a path after its last separator. */
module FileNames {
  import opened JavaStrings

  const GZ_SUFFIX: string := ".gz"

  /** A gzip file name is one ending in ".gz". */
  predicate IsGzipFilename(name: string)
  {
    EndsWith(name, GZ_SUFFIX)
  }

  /** `File.getName`: what follows the last '/' of the path (the whole path when there
      is none). */
  function Name(path: string): (r: string)
    ensures EndsWith(path, r) && '/' !in r
    decreases |path|
  {
    if |path| == 0 then ""
    else if path[|path| - 1] == '/' then ""
    else Name(path[..|path| - 1]) + [path[|path| - 1]]
  }

  /** Appending a suffix without a separator to a path appends it to the file name. */
  lemma {:induction false} NameOfAppended(path: string, suffix: string)
    requires '/' !in suffix
    ensures Name(path + suffix) == Name(path) + suffix
    decreases |suffix|
  {
    if |suffix| > 0 {
      var init := suffix[..|suffix| - 1];
      assert (path + suffix)[..|path + suffix| - 1] == path + init;
      assert suffix[|suffix| - 1] in suffix;
      assert '/' !in init by {
        forall c | c in init ensures c != '/' { assert c in suffix; }
      }
      NameOfAppended(path, init);
      assert init + [suffix[|suffix| - 1]] == suffix;
    } else {
      assert path + suffix == path;
    }
  }

  /** A path ends in a suffix free of separators exactly when its file name does. */
  lemma NameEndsWith(path: string, suffix: string)
    requires '/' !in suffix
    ensures EndsWith(Name(path), suffix) <==> EndsWith(path, suffix)
  {
    var n := Name(path);
    if EndsWith(path, suffix) && !EndsWith(n, suffix) {
      NameLongerThanSuffix(path, suffix);
    }
  }

  lemma {:induction false} NameLongerThanSuffix(path: string, suffix: string)
    requires '/' !in suffix && EndsWith(path, suffix)
    ensures EndsWith(Name(path), suffix)
    decreases |suffix|
  {
    if |suffix| > 0 {
      var init := suffix[..|suffix| - 1];
      var p := path[..|path| - 1];
      assert suffix[|suffix| - 1] in suffix;
      assert path[|path| - 1] == suffix[|suffix| - 1];
      assert '/' !in init by {
        forall c | c in init ensures c != '/' { assert c in suffix; }
      }
      assert p[|p| - |init|..] == init;
      NameLongerThanSuffix(p, init);
      assert Name(path) == Name(p) + [path[|path| - 1]];
    }
  }
}
