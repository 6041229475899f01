/** The extension test `allowed_file` of routes.py. */
module Uploads {
  import opened Common
  import opened Text

  /** Position of the last '.' in `s`, the split point of `s.rsplit('.', 1)`. */
  function LastDot(s: string): (r: Option<nat>)
    ensures r.None? <==> '.' !in s
    ensures r.Some? ==> r.value < |s| && s[r.value] == '.'
    ensures r.Some? ==> forall j :: r.value < j < |s| ==> s[j] != '.'
  {
    if |s| == 0 then None
    else if s[|s| - 1] == '.' then Some(|s| - 1)
    else
      assert s == s[..|s| - 1] + [s[|s| - 1]];
      LastDot(s[..|s| - 1])
  }

  /** `filename.rsplit('.', 1)[1]`: the text after the last '.', when there is one. */
  function Extension(filename: string): (e: Option<string>)
    ensures e.None? <==> '.' !in filename
    ensures e.Some? ==> '.' !in e.value && |e.value| < |filename|
    ensures e.Some? ==> filename[|filename| - |e.value| - 1] == '.'
    ensures e.Some? ==> filename[|filename| - |e.value|..] == e.value
  {
    match LastDot(filename)
    case None => None
    case Some(k) => Some(filename[k + 1..])
  }

  /** `allowed_file(filename, allowed_extensions)`. */
  function AllowedFile(filename: string, allowed: set<string>): (ok: bool)
    ensures '.' !in filename ==> !ok
  {
    match Extension(filename)
    case None => false
    case Some(ext) => Lower(ext) in allowed
  }

  /** Reference reading of the rule: some '.' is followed by a dot-free suffix whose
      lower-case form is allowed. */
  ghost predicate JudgedOnLastSuffix(filename: string, allowed: set<string>) {
    exists k :: 0 <= k < |filename| && filename[k] == '.' && '.' !in filename[k + 1..]
                && Lower(filename[k + 1..]) in allowed
  }

  /** The only '.' with no '.' after it is the last one. */
  lemma OnlyLastDotHasDotFreeSuffix(s: string, k: nat)
    requires k < |s| && s[k] == '.' && '.' !in s[k + 1..]
    ensures LastDot(s) == Some(k)
  {
  }

  /** `allowed_file` is exactly the reference reading above. */
  lemma AllowedFileIffLastSuffix(filename: string, allowed: set<string>)
    ensures AllowedFile(filename, allowed) <==> JudgedOnLastSuffix(filename, allowed)
  {
  }

  /** Only the last suffix decides, whatever its case: "A.JPG" and "x.tar.JPG" pass on "jpg",
      a name without a '.' never passes. */
  lemma AllowedFileExamples()
    ensures AllowedFile("A.JPG", {"jpg"})
    ensures AllowedFile("x.tar.JPG", {"jpg"})
    ensures !AllowedFile("x.tar.JPG", {"tar"})
    ensures !AllowedFile("jpg", {"jpg"})
  {
    assert "A.JPG"[2..] == "JPG";
    assert Lower("JPG") == "jpg";
    assert "x.tar.JPG"[6..] == "JPG";
    OnlyLastDotHasDotFreeSuffix("x.tar.JPG", 5);
  }
}
