/** The core name of a TeX file: its name without the `.tex` extension. */
module CommonFunctions {
  import opened Basics

  /** `to_core_name(in_str)`: the name without its `.tex` suffix,
      which the function asserts. */
  function ToCoreName(s: string): (r: string)
    requires EndsWith(s, ".tex")
    ensures r + ".tex" == s
    ensures |r| == |s| - 4 && StartsWith(s, r)
  {
    s[0..|s| - 4]
  }

  /** The core name is the unique string that `.tex` completes to the input. */
  lemma ToCoreNameUnique(s: string, c: string)
    requires c + ".tex" == s
    ensures EndsWith(s, ".tex") && ToCoreName(s) == c
  {
    assert s[|s| - 4..] == ".tex";
    assert s[0..|s| - 4] == c;
  }
}
