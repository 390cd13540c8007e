/** File utilities over an abstract filesystem: path validation, output
    directory creation, and conversion-direction detection by extension. */
module FileUtils {
  import opened Wrappers
  import opened Text
  import opened Errors
  import opened Paths
  import Parser

  datatype Kind = RegularFile | Directory

  /** The paths that exist, each a regular file or a directory. Paths are
      compared as strings. A root ("/", "//", ...) always exists as a
      directory and the empty path never exists. */
  datatype FileSystem = FileSystem(entries: map<string, Kind>)

  /** `os.path.exists` */
  predicate Exists(fs: FileSystem, p: string) {
    p != [] && (IsRoot(p) || p in fs.entries)
  }

  /** `os.path.isfile` */
  predicate IsFile(fs: FileSystem, p: string) {
    p != [] && !IsRoot(p) && p in fs.entries && fs.entries[p] == RegularFile
  }

  /** `os.path.isdir` */
  predicate IsDir(fs: FileSystem, p: string) {
    Exists(fs, p) && !IsFile(fs, p)
  }

  /** A filesystem shaped like a tree: the parent of every existing path is
      a directory. */
  ghost predicate WellFormed(fs: FileSystem) {
    forall p {:trigger ParentIsDirectory(fs, p)} :: p in fs.entries ==> ParentIsDirectory(fs, p)
  }

  ghost predicate ParentIsDirectory(fs: FileSystem, p: string) {
    Dirname(p) == [] || IsDir(fs, Dirname(p))
  }

  /** fs' holds every entry of fs unchanged, and its new entries are
      directories at d or at ancestors of d. */
  ghost predicate AddsDirectoriesOn(fs: FileSystem, fs': FileSystem, d: string) {
    && (forall q :: q in fs.entries ==> q in fs'.entries && fs'.entries[q] == fs.entries[q])
    && (forall q :: q in fs'.entries && q !in fs.entries ==> IsAncestorOrSelf(q, d) && fs'.entries[q] == Directory)
  }

  /** A value returned together with the filesystem it leaves behind. */
  datatype Step<T> = Step(value: T, fs: FileSystem)

  /** q is d or one of d's ancestors: a non-empty leading part of d that
      ends where d has a separator. */
  predicate IsAncestorOrSelf(q: string, d: string) {
    q != [] && |q| <= |d| && q == d[..|q|] && (|q| == |d| || d[|q|] == '/')
  }

  /** `validate_file_path(file_path)`: existence is checked before kind, so a
      missing path raises the built-in `FileNotFoundError`, an existing
      non-file raises `ValueError`, and a regular file yields true. */
  function ValidateFilePath(fs: FileSystem, p: string): (r: Result<bool, RaisedException>)
    ensures r.Success? <==> IsFile(fs, p)
    ensures r.Success? ==> r.value
    ensures !Exists(fs, p) ==> r == Failure(Raise(BuiltinFileNotFound, "文件不存在: " + p))
    ensures Exists(fs, p) && !IsFile(fs, p) ==> r == Failure(Raise(ValueError, "不是文件: " + p))
  {
    if !Exists(fs, p) then Failure(Raise(BuiltinFileNotFound, "文件不存在: " + p))
    else if !IsFile(fs, p) then Failure(Raise(ValueError, "不是文件: " + p))
    else Success(true)
  }

  /** `os.makedirs(d, exist_ok=True)`: create d and every missing ancestor
      along the `dirname` chain. A directory already in place is accepted; a
      regular file at d or at an ancestor makes it fail. */
  function MakeDirs(fs: FileSystem, d: string): (r: Result<FileSystem, RaisedException>)
    ensures r.Success? ==> IsDir(r.value, d)
    ensures r.Success? ==> AddsDirectoriesOn(fs, r.value, d)
    ensures IsDir(fs, d) ==> r == Success(fs)
    ensures r.Failure? ==> d == [] || exists q :: IsAncestorOrSelf(q, d) && IsFile(fs, q)
    decreases |d|
  {
    if d == [] then Failure(Raise(BuiltinFileNotFound, d))
    else if IsDir(fs, d) then Success(fs)
    else if IsFile(fs, d) then Failure(Raise(FileExists, d))
    else
      var parent := Dirname(d);
      if parent != [] && IsFile(fs, parent) then
        assert IsAncestorOrSelf(parent, d);
        Failure(Raise(NotADirectory, d))
      else
        var up := if parent == [] || Exists(fs, parent) then Success(fs) else MakeDirs(fs, parent);
        if up.Failure? then
          assert forall q :: IsAncestorOrSelf(q, parent) ==> IsAncestorOrSelf(q, d);
          Failure(up.error)
        else
          Success(FileSystem(up.value.entries[d := Directory]))
  }

  /** `create_output_dir(output_path)`: make sure the directory part of the
      path exists, creating it and its missing ancestors when it does not. */
  function CreateOutputDir(fs: FileSystem, outputPath: string): (r: Result<Step<bool>, RaisedException>)
    ensures r.Success? ==> r.value.value
    ensures Dirname(outputPath) == [] || Exists(fs, Dirname(outputPath)) ==> r == Success(Step(true, fs))
    ensures r.Success? && Dirname(outputPath) != [] ==> Exists(r.value.fs, Dirname(outputPath))
    ensures r.Success? ==> AddsDirectoriesOn(fs, r.value.fs, Dirname(outputPath))
    ensures r.Failure? ==> exists q :: IsAncestorOrSelf(q, Dirname(outputPath)) && IsFile(fs, q)
  {
    var dir := Dirname(outputPath);
    if dir != [] && !Exists(fs, dir) then
      var after := MakeDirs(fs, dir);
      if after.Failure? then Failure(after.error) else Success(Step(true, after.value))
    else
      Success(Step(true, fs))
  }

  /** A second call finds the directory in place and changes nothing. */
  lemma CreateOutputDirIdempotent(fs: FileSystem, outputPath: string)
    requires CreateOutputDir(fs, outputPath).Success?
    ensures var fs' := CreateOutputDir(fs, outputPath).value.fs;
            CreateOutputDir(fs', outputPath) == Success(Step(true, fs'))
  {
  }

  /** Adding a directory entry keeps every directory a directory. */
  lemma AddDirectoryKeepsDirectories(fs: FileSystem, d: string, q: string)
    requires IsDir(fs, q)
    ensures IsDir(FileSystem(fs.entries[d := Directory]), q)
  {
  }

  /** Adding a directory whose parent is a directory keeps the filesystem a tree. */
  lemma AddDirectoryWellFormed(fs: FileSystem, d: string)
    requires WellFormed(fs)
    requires Dirname(d) == [] || IsDir(fs, Dirname(d))
    ensures WellFormed(FileSystem(fs.entries[d := Directory]))
  {
    var fs' := FileSystem(fs.entries[d := Directory]);
    forall p | p in fs'.entries
      ensures ParentIsDirectory(fs', p)
    {
      if p != d {
        assert ParentIsDirectory(fs, p);
      }
      if Dirname(p) != [] {
        AddDirectoryKeepsDirectories(fs, d, Dirname(p));
      }
    }
  }

  /** Directory creation keeps the filesystem a tree. */
  lemma {:induction false} MakeDirsWellFormed(fs: FileSystem, d: string)
    requires WellFormed(fs)
    requires MakeDirs(fs, d).Success?
    ensures WellFormed(MakeDirs(fs, d).value)
    decreases |d|
  {
    if d != [] && !IsDir(fs, d) {
      var parent := Dirname(d);
      var up := if parent == [] || Exists(fs, parent) then fs else MakeDirs(fs, parent).value;
      if parent != [] && !Exists(fs, parent) {
        MakeDirsWellFormed(fs, parent);
      }
      assert WellFormed(up);
      assert parent == [] || IsDir(up, parent);
      AddDirectoryWellFormed(up, d);
      assert MakeDirs(fs, d).value == FileSystem(up.entries[d := Directory]);
    }
  }

  /** After a successful call the output directory and, the filesystem being
      a tree, all of its ancestors exist as directories. */
  lemma CreateOutputDirWellFormed(fs: FileSystem, outputPath: string)
    requires WellFormed(fs)
    requires CreateOutputDir(fs, outputPath).Success?
    ensures WellFormed(CreateOutputDir(fs, outputPath).value.fs)
  {
    var dir := Dirname(outputPath);
    if dir != [] && !Exists(fs, dir) {
      MakeDirsWellFormed(fs, dir);
    }
  }

  /** The extension-to-direction table of `detect_format`. */
  const FormatMap: map<string, string> :=
    map[".pdf" := "pdf2md", ".docx" := "word2md", ".doc" := "word2md", ".md" := "md2word"]

  /** `detect_format(file_path)`: look the lower-cased `splitext` extension
      up in the table; an extension it does not hold raises `ValueError`. */
  function DetectFormat(p: string): (r: Result<string, RaisedException>)
    ensures r.Success? ==> r.value == "pdf2md" || r.value == "word2md" || r.value == "md2word"
    ensures r.Failure? ==> r.error.cls == ValueError
  {
    var ext := Lower(SplitExt(p).1);
    if ext in FormatMap then Success(FormatMap[ext])
    else Failure(Raise(ValueError, "不支持的文件格式: " + ext))
  }

  /** The direction follows the lower-cased extension alone, and every
      other extension, the empty one included, is reported in the error. */
  lemma DetectFormatByExtension(p: string)
    ensures var ext := Lower(SplitExt(p).1);
      && (DetectFormat(p) == Success("pdf2md") <==> ext == ".pdf")
      && (DetectFormat(p) == Success("word2md") <==> ext == ".docx" || ext == ".doc")
      && (DetectFormat(p) == Success("md2word") <==> ext == ".md")
      && (DetectFormat(p).Failure? <==> ext !in {".pdf", ".docx", ".doc", ".md"})
      && (DetectFormat(p).Failure? ==> DetectFormat(p).error.message == "不支持的文件格式: " + ext)
  {
  }

  /** A path without an extension is always rejected. */
  lemma NoExtensionRejected(p: string)
    requires SplitExt(p).1 == []
    ensures DetectFormat(p) == Failure(Raise(ValueError, "不支持的文件格式: "))
  {
    assert Lower([]) == [];
    assert [] !in FormatMap;
    assert "不支持的文件格式: " + [] == "不支持的文件格式: ";
  }

  /** Detection ignores case. */
  lemma DetectFormatCaseInsensitive(p: string)
    ensures DetectFormat(Lower(p)) == DetectFormat(p)
  {
    SplitExtLower(p);
    LowerIdempotent(SplitExt(p).1);
  }

  lemma NamedBeforeSuffixLower(p: string, n: nat)
    ensures NamedBeforeSuffix(Lower(p), n) == NamedBeforeSuffix(p, n)
  {
    LowerSamePositions(p, '/');
    LastIndexOfSamePositions(p, Lower(p), '/');
    NonDotBetweenLower(p, LastIndexOf(p, '/') + 1, |p| - n);
  }

  /** The lower-cased extension is e exactly when the lower-cased path ends
      with e and the final component names something before it. */
  lemma LowerExtensionIs(p: string, e: string)
    requires ExtensionShaped(e)
    ensures Lower(SplitExt(p).1) == e <==> EndsWith(Lower(p), e) && NamedBeforeSuffix(p, |e|)
  {
    var lp := Lower(p);
    SplitExtLower(p);
    NamedBeforeSuffixLower(p, |e|);
    var parts := SplitExt(lp);
    if parts.1 == e {
      assert lp[|lp| - |e|..] == e;
    }
    if EndsWith(lp, e) {
      SplitExtOfSuffix(lp, e);
    }
  }

  /** Detection and the parsers agree except on names whose final component
      is nothing but dots before the suffix (".pdf", "dir/..md"): the parser
      accepts those and detection rejects them. */
  lemma DetectPdfVersusParser(p: string)
    ensures DetectFormat(p) == Success("pdf2md")
      <==> Parser.CanParse(Parser.PdfParser, p) && NamedBeforeSuffix(p, 4)
  {
    DetectFormatByExtension(p);
    Parser.CanParseSuffixes(p);
    LowerExtensionIs(p, ".pdf");
  }

  lemma DetectWordVersusParser(p: string)
    ensures DetectFormat(p) == Success("word2md")
      <==> ((EndsWith(Lower(p), ".docx") && NamedBeforeSuffix(p, 5))
        || (EndsWith(Lower(p), ".doc") && NamedBeforeSuffix(p, 4)))
  {
    DetectFormatByExtension(p);
    LowerExtensionIs(p, ".docx");
    LowerExtensionIs(p, ".doc");
  }

  lemma DetectMarkdownVersusParser(p: string)
    ensures DetectFormat(p) == Success("md2word")
      <==> Parser.CanParse(Parser.MarkdownParser, p) && NamedBeforeSuffix(p, 3)
  {
    DetectFormatByExtension(p);
    Parser.CanParseSuffixes(p);
    LowerExtensionIs(p, ".md");
  }

  /** Soundness: each direction detected names a file its parser accepts. */
  lemma DetectFormatSound(p: string)
    ensures DetectFormat(p) == Success("pdf2md") ==> Parser.CanParse(Parser.PdfParser, p)
    ensures DetectFormat(p) == Success("word2md") ==> Parser.CanParse(Parser.WordParser, p)
    ensures DetectFormat(p) == Success("md2word") ==> Parser.CanParse(Parser.MarkdownParser, p)
  {
    DetectPdfVersusParser(p);
    DetectWordVersusParser(p);
    DetectMarkdownVersusParser(p);
    Parser.CanParseSuffixes(p);
  }

  /** The converse fails: a bare ".pdf" is a PDF to the parser, yet has no
      extension to `splitext`. */
  lemma BarePdfNotDetected()
    ensures Parser.CanParse(Parser.PdfParser, ".pdf")
    ensures DetectFormat(".pdf") == Failure(Raise(ValueError, "不支持的文件格式: "))
  {
    assert Parser.CanParse(Parser.PdfParser, ".pdf") by {
      Parser.BareExtensionIsParsed();
    }
    LeadingDotIsNotExtension([], "pdf");
    assert "." + "pdf" == ".pdf";
    NoExtensionRejected(".pdf");
  }
}
