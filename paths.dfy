/**
 * Path arithmetic of the converter: joining a directory and a file name,
 * the final component and its stem, the selection of input files from a
 * directory listing (`get_files`) and the name of each output workbook
 * (the naming half of `prepare_template_copy`).
 */
module Paths {
  import opened Strings

  /** `Path(dir) / name` for a relative `name`: the two joined by one '/'. */
  function Join(dir: string, name: string): string {
    if dir == [] then name
    else if dir[|dir| - 1] == '/' then dir + name
    else dir + "/" + name
  }

  /** `Path(p).name`: the final component of a path. */
  function Name(p: string): string {
    AfterLast(p, '/')
  }

  /**
   * The joined path starts with the directory and ends with the name, with
   * at most one character between them, and when the directory is non-empty
   * the character just before the name is a '/'.
   */
  lemma JoinSpec(dir: string, name: string)
    ensures var r := Join(dir, name);
      && |dir| + |name| <= |r| <= |dir| + 1 + |name|
      && r[..|dir|] == dir && r[|r| - |name|..] == name
      && (dir != [] ==> r[|r| - |name| - 1] == '/')
  {
  }

  /** Joining a plain file name to any directory gives back that name as the final component. */
  lemma NameOfJoin(dir: string, name: string)
    requires '/' !in name
    ensures Name(Join(dir, name)) == name
  {
    if dir == [] {
      AfterLastNoSep(name, '/');
    } else if dir[|dir| - 1] == '/' {
      var d := dir[..|dir| - 1];
      assert dir + name == d + ['/'] + name;
      AfterLastAppend(d, '/', name);
    } else {
      assert dir + "/" + name == dir + ['/'] + name;
      AfterLastAppend(dir, '/', name);
    }
  }

  /**
   * `Path(p).stem`: the final component without its suffix, where the suffix
   * starts at the last '.' of the name provided that '.' is neither its first
   * nor its last character.
   */
  function Stem(p: string): string {
    var name := Name(p);
    var i := LastIndex(name, '.');
    if 0 < i < |name| - 1 then name[..i] else name
  }

  /**
   * The stem holds no '/'; it is the whole name, or it is non-empty and the
   * name is the stem, a '.', and a non-empty last segment.
   */
  lemma StemSpec(p: string)
    ensures '/' !in Stem(p)
    ensures Stem(p) == Name(p) || (Stem(p) != [] && AfterLast(Name(p), '.') != [] && Name(p) == Stem(p) + "." + AfterLast(Name(p), '.'))
  {
    var name := Name(p);
    var i := LastIndex(name, '.');
    assert '/' !in name by {
      AfterLastSpec(p, '/');
    }
    if 0 < i < |name| - 1 {
      var stem := name[..i];
      assert '/' !in stem by {
        assert forall k :: 0 <= k < i ==> stem[k] == name[k];
      }
      assert name == stem + "." + name[i + 1..] by {
        LastIndexSpec(name, '.');
      }
    }
  }

  /** A listed name ending in ".csv" (and longer than that) has its stem followed by ".csv" as its name. */
  lemma StemOfCsvName(dir: string, f: string)
    requires '/' !in f && |f| > 4 && f[|f| - 4..] == ".csv"
    ensures Stem(Join(dir, f)) + ".csv" == f
  {
    var b := f[..|f| - 4];
    assert Name(Join(dir, f)) == f by { NameOfJoin(dir, f); }
    assert LastIndex(f, '.') == |b| by {
      assert f == b + ['.'] + "csv";
      LastIndexAppend(b, '.', "csv");
    }
    assert Stem(Join(dir, f)) == b;
  }

  /** The file-type test of `get_files`: the last '.'-separated segment of the name equals the type. */
  predicate HasType(name: string, filesType: string) {
    AfterLast(name, '.') == filesType
  }

  /** `get_files`: the listed names of the wanted type, in listing order, each joined to the directory. */
  function GetFiles(dirPath: string, listing: seq<string>, filesType: string): (files: seq<string>)
    ensures |files| <= |listing|
  {
    if listing == [] then []
    else
      (if HasType(listing[0], filesType) then [Join(dirPath, listing[0])] else [])
      + GetFiles(dirPath, listing[1..], filesType)
  }

  /** Only listed names of the wanted type are selected. */
  lemma {:induction false} GetFilesSound(dirPath: string, listing: seq<string>, filesType: string, p: string)
    requires p in GetFiles(dirPath, listing, filesType)
    ensures exists f :: f in listing && HasType(f, filesType) && p == Join(dirPath, f)
  {
    if !(HasType(listing[0], filesType) && p == Join(dirPath, listing[0])) {
      GetFilesSound(dirPath, listing[1..], filesType, p);
    }
  }

  /** Every listed name of the wanted type is selected. */
  lemma {:induction false} GetFilesComplete(dirPath: string, listing: seq<string>, filesType: string, f: string)
    requires f in listing && HasType(f, filesType)
    ensures Join(dirPath, f) in GetFiles(dirPath, listing, filesType)
  {
    if listing[0] != f {
      GetFilesComplete(dirPath, listing[1..], filesType, f);
    }
  }

  /** Selection keeps the listing order: selecting from two listings in turn is selecting from their concatenation. */
  lemma {:induction false} GetFilesConcat(dirPath: string, a: seq<string>, b: seq<string>, filesType: string)
    ensures GetFiles(dirPath, a + b, filesType) == GetFiles(dirPath, a, filesType) + GetFiles(dirPath, b, filesType)
  {
    if a == [] {
      assert a + b == b;
    } else {
      var h := if HasType(a[0], filesType) then [Join(dirPath, a[0])] else [];
      assert (a + b)[0] == a[0];
      assert (a + b)[1..] == a[1..] + b;
      assert GetFiles(dirPath, a + b, filesType) == h + GetFiles(dirPath, a[1..] + b, filesType);
      GetFilesConcat(dirPath, a[1..], b, filesType);
      assert GetFiles(dirPath, a, filesType) == h + GetFiles(dirPath, a[1..], filesType);
      assert h + (GetFiles(dirPath, a[1..], filesType) + GetFiles(dirPath, b, filesType))
          == (h + GetFiles(dirPath, a[1..], filesType)) + GetFiles(dirPath, b, filesType);
    }
  }

  /** As written, a listed name without any '.' that equals the type itself (a file called "csv") is selected. */
  lemma GetFilesDotlessName(dirPath: string, filesType: string)
    requires '.' !in filesType
    ensures GetFiles(dirPath, [filesType], filesType) == [Join(dirPath, filesType)]
  {
    AfterLastNoSep(filesType, '.');
    assert [filesType][1..] == [];
  }

  /** `stem + '_' + name`, the file name of the copy made for one input file. */
  function OutputFileName(csvFile: string, templatePath: string): string {
    Stem(csvFile) + "_" + Name(templatePath)
  }

  /** `Path(output_dir) / output_filename`, as computed by `prepare_template_copy`. */
  function OutputPath(csvFile: string, templatePath: string, outputDir: string): string {
    Join(outputDir, OutputFileName(csvFile, templatePath))
  }

  /** The output sits directly in the output directory under the name stem + "_" + template name. */
  lemma OutputPathName(csvFile: string, templatePath: string, outputDir: string)
    ensures Name(OutputPath(csvFile, templatePath, outputDir)) == Stem(csvFile) + "_" + Name(templatePath)
  {
    var stem, tname := Stem(csvFile), Name(templatePath);
    var n := stem + "_" + tname;
    assert '/' !in stem by {
      StemSpec(csvFile);
    }
    assert '/' !in tname by {
      AfterLastSpec(templatePath, '/');
    }
    assert '/' !in n by {
      forall k | 0 <= k < |n|
        ensures n[k] != '/'
      {
        if k < |stem| {
          assert n[k] == stem[k];
        } else if k > |stem| {
          assert n[k] == tname[k - |stem| - 1];
        }
      }
    }
    NameOfJoin(outputDir, n);
  }

  /** Two inputs share an output path exactly when their stems agree. */
  lemma OutputPathInjective(a: string, b: string, templatePath: string, outputDir: string)
    ensures OutputPath(a, templatePath, outputDir) == OutputPath(b, templatePath, outputDir) <==> Stem(a) == Stem(b)
  {
    if OutputPath(a, templatePath, outputDir) == OutputPath(b, templatePath, outputDir) {
      OutputPathName(a, templatePath, outputDir);
      OutputPathName(b, templatePath, outputDir);
      var sa, sb := Stem(a) + "_", Stem(b) + "_";
      var t := Name(templatePath);
      assert sa + t == sb + t;
      assert sa == (sa + t)[..|sa|];
      assert sb == (sb + t)[..|sb|];
      assert Stem(a) == sa[..|sa| - 1] && Stem(b) == sb[..|sb| - 1];
    }
  }
}
