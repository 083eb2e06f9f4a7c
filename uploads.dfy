/**
 * `allowed_file` (utils.py:5-9): an uploaded image is accepted when its
 * name has a dot and the text after the last dot, lower-cased, is one of
 * the four image extensions.
 */
module Uploads {
  import opened Common
  import opened Text

  const AllowedExtensions: set<string> := {"png", "jpg", "jpeg", "gif"}

  /**
   * `name.rsplit('.', 1)[1]`: the text after the last dot, or `None` when
   * the name has no dot (where `rsplit` would give a single part).
   */
  function Extension(name: string): (ext: Option<string>)
    ensures ext.None? <==> '.' !in name
    ensures ext.Some? ==>
              && '.' !in ext.value
              && |ext.value| < |name|
              && name[|name| - |ext.value| - 1] == '.'
              && name[|name| - |ext.value|..] == ext.value
    decreases |name|
  {
    if name == [] then None
    else
      var n := |name| - 1;
      if name[n] == '.' then Some("")
      else
        match Extension(name[..n])
        case None => None
        case Some(e) => Some(e + [name[n]])
  }

  /** `allowed_file(name)`. */
  predicate AllowedFile(name: string)
  {
    Extension(name).Some? && Lower(Extension(name).value) in AllowedExtensions
  }

  /** The extension of `base + "." + ext` is `ext` whenever `ext` has no dot, whatever `base` holds. */
  lemma {:induction false} ExtensionOfDotted(base: string, ext: string)
    requires '.' !in ext
    ensures Extension(base + "." + ext) == Some(ext)
    decreases |ext|
  {
    var name := base + "." + ext;
    if ext == [] {
      assert name[|name| - 1] == '.';
    } else {
      var n := |ext| - 1;
      assert name[..|name| - 1] == base + "." + ext[..n];
      assert '.' !in ext[..n] by {
        forall k | 0 <= k < n ensures ext[..n][k] != '.' {
          assert ext[..n][k] == ext[k];
        }
      }
      ExtensionOfDotted(base, ext[..n]);
      assert ext[..n] + [ext[n]] == ext;
    }
  }

  /** A file is allowed exactly when the part after its last dot is an allowed extension, in any letter case. */
  lemma AllowedFileDotted(base: string, ext: string)
    requires '.' !in ext
    ensures AllowedFile(base + "." + ext) <==> Lower(ext) in AllowedExtensions
  {
    ExtensionOfDotted(base, ext);
  }

  /** Lower-casing a name commutes with taking its extension. */
  lemma {:induction false} ExtensionOfLower(name: string)
    ensures Extension(Lower(name)) == match Extension(name) case None => None case Some(e) => Some(Lower(e))
    decreases |name|
  {
    if name != [] {
      var n := |name| - 1;
      var low := Lower(name);
      LowerPrefix(name, n);
      ExtensionOfLower(name[..n]);
      var c := name[n];
      assert low[n] == LowerChar(c);
      if c != '.' {
        assert low[n] != '.';
        match Extension(name[..n])
        case None =>
        case Some(e) =>
          LowerSnoc(e, c);
      }
    }
  }

  lemma LowerPrefix(s: string, n: nat)
    requires n <= |s|
    ensures Lower(s)[..n] == Lower(s[..n])
  {
  }

  lemma LowerSnoc(s: string, c: char)
    ensures Lower(s + [c]) == Lower(s) + [LowerChar(c)]
  {
  }

  lemma LowerTwice(s: string)
    ensures Lower(Lower(s)) == Lower(s)
  {
  }

  /** Whether a file is allowed does not depend on the letter case of its name. */
  lemma AllowedIgnoresCase(name: string)
    ensures AllowedFile(Lower(name)) <==> AllowedFile(name)
  {
    ExtensionOfLower(name);
    if Extension(name).Some? {
      LowerTwice(Extension(name).value);
    }
  }

  /** Upper-case extensions are accepted. */
  lemma UpperCaseAccepted()
    ensures AllowedFile("A.PNG")
  {
    AllowedFileDotted("A", "PNG");
    assert Lower("PNG") == "png";
  }

  /** Only the last extension counts: a hidden executable is refused ... */
  lemma LastExtensionRefused()
    ensures !AllowedFile("x.png.exe")
  {
    AllowedFileDotted("x.png", "exe");
    assert Lower("exe") == "exe";
  }

  /** ... and an image name with an earlier dot is accepted. */
  lemma LastExtensionAccepted()
    ensures AllowedFile("x.exe.png")
  {
    AllowedFileDotted("x.exe", "png");
    assert Lower("png") == "png";
  }

  /** A trailing dot leaves an empty extension, and a name without a dot is refused even when it spells one. */
  lemma DotRequired()
    ensures !AllowedFile("x.") && !AllowedFile("png")
  {
    AllowedFileDotted("x", "");
    assert "png"[0] != '.' && "png"[1] != '.' && "png"[2] != '.';
  }
}
