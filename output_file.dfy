/**
 * The extension rule applied to the file chosen in the save dialog: a name
 * that ends with neither ".jpg" nor ".jpeg" gets ".jpg" appended, in the
 * same parent directory. The test is case-sensitive, like `String.endsWith`.
 */
module OutputFile {
  import opened Wrappers

  /** A `java.io.File` as its `getParent()` (null for none) and `getName()`. */
  datatype JavaFile = JavaFile(parent: Option<string>, name: string)

  predicate EndsWith(s: string, suffix: string) {
    |suffix| <= |s| && s[|s| - |suffix|..] == suffix
  }

  predicate HasJpegExtension(name: string) {
    EndsWith(name, ".jpg") || EndsWith(name, ".jpeg")
  }

  lemma AppendedSuffix(s: string, suffix: string)
    ensures EndsWith(s + suffix, suffix)
  {
    assert (s + suffix)[|s|..] == suffix;
  }

  /** The file the image is written to, for the file the user chose. */
  function EnsureJpegExtension(f: JavaFile): (r: JavaFile)
    ensures r.parent == f.parent
    ensures HasJpegExtension(r.name)
    ensures |f.name| <= |r.name| && r.name[..|f.name|] == f.name
  {
    AppendedSuffix(f.name, ".jpg");
    if !EndsWith(f.name, ".jpg") && !EndsWith(f.name, ".jpeg") then
      JavaFile(f.parent, f.name + ".jpg")
    else
      f
  }

  /** An accepted name is kept; any other name gets exactly ".jpg" added. */
  lemma EnsureJpegExtensionCases(f: JavaFile)
    ensures HasJpegExtension(f.name) ==> EnsureJpegExtension(f) == f
    ensures !HasJpegExtension(f.name) ==> EnsureJpegExtension(f).name == f.name + ".jpg"
  {
  }

  /** Applying the rule twice is the same as applying it once. */
  lemma EnsureJpegExtensionIdempotent(f: JavaFile)
    ensures EnsureJpegExtension(EnsureJpegExtension(f)) == EnsureJpegExtension(f)
  {
  }

  /** A name without an extension gets ".jpg". */
  lemma BareNameExample(dir: Option<string>)
    ensures EnsureJpegExtension(JavaFile(dir, "card")) == JavaFile(dir, "card.jpg")
  {
    assert "card"[0..] != ".jpg";
  }

  /** Another extension is not replaced: ".jpg" is added after it. */
  lemma OtherExtensionExample(dir: Option<string>)
    ensures EnsureJpegExtension(JavaFile(dir, "card.png")) == JavaFile(dir, "card.png.jpg")
  {
    var n := "card.png";
    assert n[7] == 'g' && n[6] == 'n';
    assert n[3..] != ".jpeg";
  }

  /** The test is case-sensitive: ".JPG" is not recognised. */
  lemma UpperCaseExample(dir: Option<string>)
    ensures EnsureJpegExtension(JavaFile(dir, "card.JPG")) == JavaFile(dir, "card.JPG.jpg")
  {
    var n := "card.JPG";
    assert n[5] == 'J';
    assert n[7] == 'G';
  }

  lemma JpegExample(dir: Option<string>)
    ensures EnsureJpegExtension(JavaFile(dir, "card.jpg")) == JavaFile(dir, "card.jpg")
    ensures EnsureJpegExtension(JavaFile(dir, "card.jpeg")) == JavaFile(dir, "card.jpeg")
  {
    assert "card.jpg"[4..] == ".jpg";
    assert "card.jpeg"[4..] == ".jpeg";
  }
}
