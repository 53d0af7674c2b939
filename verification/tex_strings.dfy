/** TeX snippets that include the generated pictures: one picture, a beamer
    frame that overprints the pictures 0..n-1, and an animation over the
    numbered pictures, which relies on the file naming of `OutputPaths`. */
module TexStrings {
  import opened Basics
  import opened OutputPaths

  /** `includegraphics_str(paths, n, width)`: the short pdf path of picture n
      at the given fraction of the text width (the number's rendering is a
      parameter). */
  function IncludeGraphicsStr(tmpDir: Path, p: Paths, n: int, width: string): (r: string)
    ensures StartsWith(r, "\\includegraphics[width=" + width + "\\textwidth]{")
    ensures r == "\\includegraphics[width=" + width + "\\textwidth]{"
      + FramePrefix(p) + (IntToString(n) + ".pdf") + "}"
  {
    ShortPdfPathString(tmpDir, p, n);
    var head := "\\includegraphics[width=" + width + "\\textwidth]{";
    var r := head + PathString(ShortPdfPath(tmpDir, p, n)) + "}";
    assert r[..|head|] == head;
    r
  }

  function FrameHeader(): string
  {
    "\\begin{frame}\n" + ("  \\begin{center}\n" + "    \\begin{overprint}\n")
  }

  function FrameFooter(): string
  {
    ("    \\end{overprint}\n" + "  \\end{center}\n") + "\\end{frame}\n"
  }

  /** Line k of the overprint: slide k + 1 shows picture k. */
  function OverprintLine(tmpDir: Path, p: Paths, k: nat, width: string): string
  {
    "        \\onslide<" + NatToString(k + 1) + ">\\centerline{" + IncludeGraphicsStr(tmpDir, p, k, width) + "}\n"
  }

  /** Line k of the overprint, as a function of k. */
  function LineOf(tmpDir: Path, p: Paths, width: string): nat -> string
  {
    (k: nat) => OverprintLine(tmpDir, p, k, width)
  }

  /** Lines 0..n-1 of the overprint, in order. */
  function OverprintLines(tmpDir: Path, p: Paths, n: nat, width: string): string
  {
    Lines(LineOf(tmpDir, p, width), n)
  }

  /** The lines f(0), ..., f(n-1), one after the other. */
  function Lines(f: nat -> string, n: nat): string
  {
    if n == 0 then "" else Lines(f, n - 1) + f(n - 1)
  }

  /** Line k of n sits right after lines 0..k-1. */
  lemma {:induction false} LineAt(f: nat -> string, n: nat, k: nat)
    requires k < n
    ensures OccursAt(f(k), Lines(f, n), |Lines(f, k)|)
    decreases n
  {
    if k == n - 1 {
      OccursAfter(Lines(f, k), f(k));
    } else {
      LineAt(f, n - 1, k);
      OccursInLonger(f(k), Lines(f, n - 1), f(n - 1), |Lines(f, k)|);
    }
  }

  /** `simple_overprint_frame(paths, n, width)`: the frame header, one line per
      picture 0..n-1, the footer. */
  method SimpleOverprintFrame(tmpDir: Path, p: Paths, n: nat, width: string) returns (r: string)
    ensures r == FrameHeader() + OverprintLines(tmpDir, p, n, width) + FrameFooter()
    ensures StartsWith(r, "\\begin{frame}\n") && EndsWith(r, "\\end{frame}\n")
  {
    var head := FrameHeader();
    r := head;
    for k := 0 to n
      invariant r == head + OverprintLines(tmpDir, p, k, width)
    {
      var line := OverprintLine(tmpDir, p, k, width);
      assert OverprintLines(tmpDir, p, k + 1, width) == OverprintLines(tmpDir, p, k, width) + line;
      AppendAssoc(head, OverprintLines(tmpDir, p, k, width), line);
      r := r + line;
    }
    var foot := FrameFooter();
    r := r + foot;
    HeaderStart();
    FooterEnd();
    StartsWithAppend(head, OverprintLines(tmpDir, p, n, width), "\\begin{frame}\n");
    StartsWithAppend(head + OverprintLines(tmpDir, p, n, width), foot, "\\begin{frame}\n");
    EndsWithPrepend(head + OverprintLines(tmpDir, p, n, width), foot, "\\end{frame}\n");
  }

  lemma HeaderStart()
    ensures StartsWith(FrameHeader(), "\\begin{frame}\n")
  {
    var a := "\\begin{frame}\n";
    assert a[..|a|] == a;
    StartsWithAppend(a, "  \\begin{center}\n" + "    \\begin{overprint}\n", a);
  }

  lemma FooterEnd()
    ensures EndsWith(FrameFooter(), "\\end{frame}\n")
  {
    var b := "\\end{frame}\n";
    assert b[|b| - |b|..] == b;
    EndsWithPrepend("    \\end{overprint}\n" + "  \\end{center}\n", b, b);
  }

  /** Line k of an n-line overprint sits right after lines 0..k-1: the lines
      come in picture order, one per picture. */
  lemma OverprintLineAt(tmpDir: Path, p: Paths, n: nat, k: nat, width: string)
    requires k < n
    ensures OccursAt(OverprintLine(tmpDir, p, k, width), OverprintLines(tmpDir, p, n, width),
                     |OverprintLines(tmpDir, p, k, width)|)
  {
    LineAt(LineOf(tmpDir, p, width), n, k);
  }

  /** The options `animategraphics_str` accepts: non-empty, not starting with '[' and not ending with ']'. */
  predicate ValidOptions(opts: string)
  {
    |opts| > 0 && opts[0] != '[' && opts[|opts| - 1] != ']'
  }

  /** `animategraphics_str(paths, rate, opts, first, last)`. The options must be
      non-empty and not bracketed (the function asserts it); the second
      assertion, that the short path of picture -1 ends in `_-1.pdf`, always
      holds (`MinusOnePathSuffix`), and the six characters `-1.pdf` are dropped
      to get the file-name prefix of the frames. */
  function AnimateGraphicsStr(tmpDir: Path, p: Paths, rate: int, opts: string, first: int, last: int): (r: string)
    requires ValidOptions(opts)
    ensures r == "\\animategraphics[" + opts + "]{" + IntToString(rate) + "}{"
      + FramePrefix(p) + "}{" + IntToString(first) + "}{" + IntToString(last) + "}"
  {
    MinusOnePathSuffix(tmpDir, p);
    var corePath := StripFrameSuffix(PathString(ShortPdfPath(tmpDir, p, -1)));
    StrippedIsFramePrefix(tmpDir, p);
    "\\animategraphics[" + opts + "]{" + IntToString(rate) + "}{" + corePath + "}{"
      + IntToString(first) + "}{" + IntToString(last) + "}"
  }

  /** `short_path[0:-6]` after asserting the suffix `_-1.pdf`: the prefix shared by
      all frame files, ending in the underscore. */
  function StripFrameSuffix(s: string): (r: string)
    requires EndsWith(s, "_-1.pdf")
    ensures r + "-1.pdf" == s && EndsWith(r, "_")
  {
    var r := s[..|s| - 6];
    assert r[|r| - 1..] == s[|s| - 7..|s| - 6] == "_";
    r
  }

  /** The short path of picture -1 is the frame prefix followed by `-1.pdf`. */
  lemma MinusOnePath(tmpDir: Path, p: Paths)
    ensures PathString(ShortPdfPath(tmpDir, p, -1)) == FramePrefix(p) + "-1.pdf"
  {
    ShortPdfPathString(tmpDir, p, -1);
    MinusOneString();
    assert IntToString(-1) + ".pdf" == "-1.pdf";
  }

  /** The short path of picture -1 has the suffix the animation asserts. */
  lemma MinusOnePathSuffix(tmpDir: Path, p: Paths)
    ensures EndsWith(PathString(ShortPdfPath(tmpDir, p, -1)), "_-1.pdf")
  {
    MinusOnePath(tmpDir, p);
    EndsWithUnderscore(FramePrefix(p), p.core + "/" + p.core);
    UnderscoreThenMinusOne(PathString(ShortPdfPath(tmpDir, p, -1)), FramePrefix(p));
  }

  /** A prefix ending in '_' followed by `-1.pdf` ends in `_-1.pdf`. */
  lemma UnderscoreThenMinusOne(s: string, f: string)
    requires |f| > 0 && f[|f| - 1] == '_' && s == f + "-1.pdf"
    ensures EndsWith(s, "_-1.pdf")
  {
    assert s[|s| - 7..] == [f[|f| - 1]] + "-1.pdf";
  }

  lemma EndsWithUnderscore(f: string, g: string)
    requires f == g + "_"
    ensures |f| > 0 && f[|f| - 1] == '_'
  {
  }

  /** Stripping the suffix leaves exactly the frame prefix. */
  lemma StrippedIsFramePrefix(tmpDir: Path, p: Paths)
    ensures EndsWith(PathString(ShortPdfPath(tmpDir, p, -1)), "_-1.pdf")
      && StripFrameSuffix(PathString(ShortPdfPath(tmpDir, p, -1))) == FramePrefix(p)
  {
    MinusOnePathSuffix(tmpDir, p);
    MinusOnePath(tmpDir, p);
    var s := PathString(ShortPdfPath(tmpDir, p, -1));
    AppendCancel(StripFrameSuffix(s), FramePrefix(p), "-1.pdf");
  }

  /** The stripped prefix followed by `k.pdf` is the short path of picture k:
      the animation finds exactly the files the pictures were saved to. */
  lemma FramePrefixNamesFrames(tmpDir: Path, p: Paths, k: int)
    ensures EndsWith(PathString(ShortPdfPath(tmpDir, p, -1)), "_-1.pdf")
      && StripFrameSuffix(PathString(ShortPdfPath(tmpDir, p, -1))) + (IntToString(k) + ".pdf")
      == PathString(ShortPdfPath(tmpDir, p, k))
  {
    StrippedIsFramePrefix(tmpDir, p);
    ShortPdfPathString(tmpDir, p, k);
  }
}
