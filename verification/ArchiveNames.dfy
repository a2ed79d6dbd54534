/** Names of archive members, read the same way by the ingestion and by the bridging script. */
module ArchiveNames {
  import opened Text

  predicate IsDataFile(name: string) {
    EndsWith(name, ".txt") || EndsWith(name, ".csv")
  }

  function TickerOf(name: string): string {
    Upper(Stem(BaseName(name)))
  }

  /** The ticker of a plain file name is its stem in upper case. */
  lemma TickerOfPlainName(stem: string, ext: string)
    requires (exists i :: 0 <= i < |stem| && stem[i] != '.') && '/' !in stem && '/' !in ext && '.' !in ext
    ensures TickerOf(stem + "." + ext) == Upper(stem)
  {
    var name := stem + "." + ext;
    assert '/' !in name;
    assert name[..] == name && BaseName(name) == name;
    assert name[|stem|] == '.';
    assert forall j :: |stem| < j < |name| ==> name[j] == ext[j - |stem| - 1];
    assert forall j :: |stem| < j < |name| ==> name[j] != '.';
    assert LastIndexOf(name, '.') == |stem|;
    var i :| 0 <= i < |stem| && stem[i] != '.';
    assert name[i] == stem[i];
    assert name[..|stem|] == stem;
  }

  /** Directories are no part of the ticker. */
  lemma TickerOfPath(dir: string, stem: string, ext: string)
    requires (exists i :: 0 <= i < |stem| && stem[i] != '.') && '/' !in stem && '/' !in ext && '.' !in ext
    ensures TickerOf(dir + "/" + stem + "." + ext) == Upper(stem)
  {
    var file := stem + "." + ext;
    var name := dir + "/" + stem + "." + ext;
    assert '/' !in file;
    assert name == dir + "/" + file && name[|dir|] == '/';
    assert forall j :: |dir| < j < |name| ==> name[j] == file[j - |dir| - 1];
    assert forall j :: |dir| < j < |name| ==> name[j] != '/';
    assert LastIndexOf(name, '/') == |dir|;
    assert name[|dir| + 1..] == file && BaseName(name) == file;
    assert BaseName(file) == file by {
      assert LastIndexOf(file, '/') == -1;
    }
    TickerOfPlainName(stem, ext);
    hide Stem, BaseName;
  }

  /** Dots at the start of a name are no ending. */
  lemma TickerOfDotFile(dots: string, rest: string)
    requires forall i :: 0 <= i < |dots| ==> dots[i] == '.'
    requires '.' !in rest && '/' !in rest
    ensures TickerOf(dots + rest) == Upper(dots + rest)
  {
    var name := dots + rest;
    assert forall i :: 0 <= i < |dots| ==> name[i] == '.';
    assert forall i :: |dots| <= i < |name| ==> name[i] == rest[i - |dots|];
    assert BaseName(name) == name by {
      assert LastIndexOf(name, '/') == -1;
    }
    assert Stem(name) == name by {
      assert LastIndexOf(name, '.') < |dots|;
    }
    hide BaseName, Stem;
  }

  /** The members that are read are those whose names end in .txt or .csv. */
  lemma IsDataFileIff(name: string)
    ensures IsDataFile(name) <==> exists stem :: name == stem + ".txt" || name == stem + ".csv"
  {
    if IsDataFile(name) {
      var stem := name[..|name| - 4];
      assert name == stem + ".txt" || name == stem + ".csv";
    }
    if stem :| name == stem + ".txt" || name == stem + ".csv" {
      assert name[|name| - 4..] == ".txt" || name[|name| - 4..] == ".csv";
    }
  }
}
