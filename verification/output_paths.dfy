/** File naming of the generated pictures. Every TeX name maps, through the
    project configuration (a map here), to a `.tex` file name; its core (the
    name without `.tex`) names a directory and prefixes every file in it. */
module OutputPaths {
  import opened Basics
  import opened CommonFunctions

  /** `_get_core_name(in_tex_name)`: the configured file name without `.tex`;
      the name must be configured and the value must end in `.tex`. */
  function CoreName(config: map<string, string>, texName: string): (r: string)
    requires texName in config && EndsWith(config[texName], ".tex")
    ensures r + ".tex" == config[texName]
  {
    var res := config[texName];
    res[..|res| - 4]
  }

  /** The two core-name functions agree. */
  lemma CoreNamesAgree(config: map<string, string>, texName: string)
    requires texName in config && EndsWith(config[texName], ".tex")
    ensures CoreName(config, texName) == ToCoreName(config[texName])
  {
    ToCoreNameUnique(config[texName], CoreName(config, texName));
  }

  /** `OutputPaths(in_config_tex_name)`: the core name and the TeX name. */
  datatype Paths = Paths(core: string, texName: string)

  function NewPaths(config: map<string, string>, texName: string): (r: Paths)
    requires texName in config && EndsWith(config[texName], ".tex")
    ensures r.core + ".tex" == config[texName] && r.texName == texName
  {
    Paths(CoreName(config, texName), texName)
  }

  /** `_get_file_name(postfix)`: core, underscore, postfix. */
  function FileNameWith(p: Paths, postfix: string): (r: string)
    ensures StartsWith(r, p.core + "_") && r[|p.core| + 1..] == postfix
  {
    p.core + "_" + postfix
  }

  /** `get_file_name(n)`: the pdf of picture n. */
  function FileName(p: Paths, n: int): (r: string)
    ensures r == FileNameWith(p, IntToString(n) + ".pdf")
    ensures StartsWith(r, p.core + "_") && EndsWith(r, ".pdf")
  {
    var r := p.core + "_" + IntToString(n) + ".pdf";
    assert r[|r| - 4..] == ".pdf";
    assert r[..|p.core| + 1] == p.core + "_";
    r
  }

  /** A path as its components. */
  type Path = seq<string>

  /** `str(path)`: the components joined by '/'. */
  function PathString(p: Path): (r: string)
    requires |p| > 0
    ensures StartsWith(r, p[0])
    ensures |p| == 1 ==> r == p[0]
    ensures |p| > 1 ==> EndsWith(r, "/" + p[|p| - 1])
    decreases |p|
  {
    if |p| == 1 then p[0]
    else
      var init := PathString(p[..|p| - 1]);
      StartsWithAppend(init, "/" + p[|p| - 1], p[0]);
      init + ("/" + p[|p| - 1])
  }

  /** Joining two paths with `/` and rendering the result is rendering each
      and joining the strings with a slash. */
  lemma {:induction false} PathStringConcat(a: Path, b: Path)
    requires |a| > 0 && |b| > 0
    ensures PathString(a + b) == PathString(a) + "/" + PathString(b)
    decreases |b|
  {
    var ab := a + b;
    var tail := "/" + b[|b| - 1];
    if |b| == 1 {
      assert ab[..|ab| - 1] == a;
    } else {
      var init := b[..|b| - 1];
      assert ab[..|ab| - 1] == a + init;
      assert PathString(ab) == PathString(a + init) + tail;
      PathStringConcat(a, init);
      var pa, pi := PathString(a), PathString(init);
      assert PathString(b) == pi + tail;
      assert (pa + "/" + pi) + tail == pa + "/" + (pi + tail);
    }
  }

  /** `get_pdf_file_path(n)`: the data directory, then the core directory,
      then a file named `core_` followed by `n.pdf`. */
  function PdfFilePath(tmpDir: Path, p: Paths, n: int): (r: Path)
    ensures |r| == |tmpDir| + 2 && r[..|tmpDir|] == tmpDir && r[|tmpDir|] == p.core
    ensures StartsWith(r[|tmpDir| + 1], p.core + "_")
    ensures r[|tmpDir| + 1][|p.core| + 1..] == IntToString(n) + ".pdf"
  {
    tmpDir + [p.core, FileName(p, n)]
  }

  /** `Path.relative_to(base)`: the components after the base, which must be a prefix. */
  function RelativeTo(path: Path, base: Path): (r: Path)
    requires |base| <= |path| && path[..|base|] == base
    ensures base + r == path
  {
    path[|base|..]
  }

  /** `get_short_pdf_path(n)`: the pdf path relative to the data directory is
      the two components core / core_n.pdf, whatever the data directory is. */
  function ShortPdfPath(tmpDir: Path, p: Paths, n: int): (r: Path)
    ensures r == [p.core, FileName(p, n)]
  {
    var full := PdfFilePath(tmpDir, p, n);
    assert full[..|tmpDir|] == tmpDir;
    RelativeTo(full, tmpDir)
  }

  /** `core/core_`: what the short pdf paths of all pictures start with. */
  function FramePrefix(p: Paths): string
  {
    p.core + "/" + p.core + "_"
  }

  /** The short path as a string: core/core_n.pdf. */
  lemma ShortPdfPathString(tmpDir: Path, p: Paths, n: int)
    ensures PathString(ShortPdfPath(tmpDir, p, n)) == FramePrefix(p) + (IntToString(n) + ".pdf")
  {
    var s := ShortPdfPath(tmpDir, p, n);
    var tail := IntToString(n) + ".pdf";
    var file := FileName(p, n);
    assert s == [p.core, file];
    assert s[..1] == [p.core];
    assert PathString(s) == p.core + ("/" + file);
    assert file == p.core + "_" + tail;
    assert p.core + ("/" + (p.core + "_" + tail)) == FramePrefix(p) + tail;
  }

  /** `get_general_file_path(postfix)`: the same directory and the same `core_`
      prefix as the pdfs, followed by the postfix. */
  function GeneralFilePath(tmpDir: Path, p: Paths, postfix: string): (r: Path)
    ensures |r| == |tmpDir| + 2 && r[..|tmpDir|] == tmpDir && r[|tmpDir|] == p.core
    ensures StartsWith(r[|tmpDir| + 1], p.core + "_") && r[|tmpDir| + 1][|p.core| + 1..] == postfix
  {
    tmpDir + [p.core, FileNameWith(p, postfix)]
  }

  /** The pdf of picture n is the general file with postfix `n.pdf`. */
  lemma PdfIsGeneralFile(tmpDir: Path, p: Paths, n: int)
    ensures PdfFilePath(tmpDir, p, n) == GeneralFilePath(tmpDir, p, IntToString(n) + ".pdf")
  {
  }

  /** `get_tex_file_path()`: the configured file directly in the data directory. */
  function TexFilePath(tmpDir: Path, config: map<string, string>, p: Paths): (r: Path)
    requires p.texName in config
    ensures |r| == |tmpDir| + 1 && r[..|tmpDir|] == tmpDir && r[|tmpDir|] == config[p.texName]
  {
    tmpDir + [config[p.texName]]
  }

  /** Different picture numbers give different pdf names. */
  lemma FileNamesDistinct(p: Paths, n: int, k: int)
    requires n != k
    ensures FileName(p, n) != FileName(p, k)
  {
    var a := FileName(p, n);
    var b := FileName(p, k);
    if a == b {
      var pre := |p.core| + 1;
      assert a[pre..|a| - 4] == IntToString(n);
      assert b[pre..|b| - 4] == IntToString(k);
      IntToStringInjective(n, k);
    }
  }
}
