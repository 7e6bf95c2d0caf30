/** Which directory entries the organiser treats as photos. */
module Classifier {
  import opened Paths

  /** What os.Stat reports about an entry (it follows symbolic links). */
  datatype Kind = Regular | Directory | Irregular

  /** allowedImageFileExts: formats that may carry an EXIF block. */
  const AllowedImageFileExts: seq<string> :=
    [".heic", ".jpg", ".jpeg", ".tif", ".tiff", ".wav", ".png", ".webp"]

  /** isImageFile: a regular file whose lower-cased extension is on the allow-list. */
  predicate IsImageFile(p: Path, kind: Kind) {
    kind == Regular && LowerCaseExt(p) in AllowedImageFileExts
  }

  /** The name ends, ignoring case, with an allowed extension. */
  predicate EndsWithAllowedExt(p: Path) {
    exists e :: e in AllowedImageFileExts && |e| <= |p| && Lower(p[|p| - |e|..]) == e
  }

  lemma AllowedAreExtensions()
    ensures forall e :: e in AllowedImageFileExts ==> IsExtension(e)
  {
  }

  /** A suffix that lower-cases to an extension is the path's own extension. */
  lemma SuffixIsExt(p: Path, e: string)
    requires IsExtension(e) && |e| <= |p| && Lower(p[|p| - |e|..]) == e
    ensures LowerCaseExt(p) == e
  {
    var s := p[|p| - |e|..];
    LowerCharKeepsPunctuation(s[0]);
    forall j | 1 <= j < |s| ensures s[j] != '.' && s[j] != '/' {
      LowerCharKeepsPunctuation(s[j]);
    }
    assert IsExtension(s);
    assert p == p[..|p| - |e|] + s;
    ExtOfExtension(p[..|p| - |e|], s);
  }

  /** The lower-cased extension of an image is, read back from the name, an allowed suffix. */
  lemma ImageEndsWithAllowedExt(p: Path, kind: Kind)
    requires IsImageFile(p, kind)
    ensures EndsWithAllowedExt(p)
  {
    var x := Ext(p);
    var e := LowerCaseExt(p);
    assert x != "";
    assert e == Lower(x);
    assert x == p[|p| - |x|..];
    assert e in AllowedImageFileExts && |e| <= |p| && Lower(p[|p| - |e|..]) == e;
  }

  /** An allowed suffix, in any case, is the extension filepath.Ext finds. */
  lemma AllowedSuffixIsImageExt(p: Path)
    requires EndsWithAllowedExt(p)
    ensures LowerCaseExt(p) in AllowedImageFileExts
  {
    var e :| e in AllowedImageFileExts && |e| <= |p| && Lower(p[|p| - |e|..]) == e;
    AllowedAreExtensions();
    SuffixIsExt(p, e);
  }

  /** An entry is an image exactly when it is regular and its name ends, in any case, with an allowed extension. */
  lemma IsImageFileBySuffix(p: Path, kind: Kind)
    ensures IsImageFile(p, kind) <==> kind == Regular && EndsWithAllowedExt(p)
  {
    if kind == Regular && EndsWithAllowedExt(p) {
      AllowedSuffixIsImageExt(p);
    }
    if IsImageFile(p, kind) {
      ImageEndsWithAllowedExt(p, kind);
    }
  }

  /** Classification ignores case: two names that lower-case alike classify alike. */
  lemma IsImageFileIgnoresCase(p: Path, q: Path, kind: Kind)
    requires Lower(p) == Lower(q)
    ensures IsImageFile(p, kind) <==> IsImageFile(q, kind)
  {
    LowerExtCommutes(p);
    LowerExtCommutes(q);
  }

  /** Every image has an extension, so no image is the root directory. */
  lemma ImageHasExtension(p: Path, kind: Kind)
    requires IsImageFile(p, kind)
    ensures Ext(p) != "" && p != "/"
  {
    var e := LowerCaseExt(p);
    assert e in AllowedImageFileExts;
    AllowedAreExtensions();
    assert e != "";
    assert ExtStart("/") == -1;
  }

  /** Upper and lower case spellings of an allowed extension classify alike. */
  lemma UpperAndLowerCaseExamples()
    ensures IsImageFile("/photos/a.JPG", Regular) && IsImageFile("/photos/a.jpg", Regular)
  {
    var p, q := "/photos/a.JPG", "/photos/a.jpg";
    assert p[|p| - 4..] == ".JPG" && q[|q| - 4..] == ".jpg";
    assert Lower(".JPG") == ".jpg" && Lower(".jpg") == ".jpg";
    SuffixIsExt(p, ".jpg");
    SuffixIsExt(q, ".jpg");
  }

  /** Only regular files are images: a directory or an irregular entry is rejected whatever its name. */
  lemma NonRegularRejected(p: Path, kind: Kind)
    requires kind != Regular
    ensures !IsImageFile(p, kind)
  {
  }

  /** Only the last element's extension counts: a dotless name is never a photo, whatever directory it is in. */
  lemma DotlessNameRejected(dir: Path, name: string, kind: Kind)
    requires forall j :: 0 <= j < |name| ==> name[j] != '.' && name[j] != '/'
    ensures !IsImageFile(dir + "/" + name, kind)
  {
    ExtStartAfterSlash(dir, name);
    ExtStartWithoutDot(name);
  }

  /** For instance, a file inside a directory named like a photo is not a photo. */
  lemma DirectoryExtensionIgnored()
    ensures !IsImageFile("/photos.jpg/readme", Regular)
  {
    var dir, name := "/photos.jpg", "readme";
    assert forall j :: 0 <= j < |name| ==> name[j] != '.' && name[j] != '/';
    DotlessNameRejected(dir, name, Regular);
    assert dir + "/" + name == "/photos.jpg/readme";
  }

  /** Only the final extension counts: "a.jpg.txt" is a text file. */
  lemma FinalExtensionCounts()
    ensures !IsImageFile("/photos/a.jpg.txt", Regular)
  {
    var q := "/photos/a.jpg.txt";
    assert q[|q| - 4..] == ".txt";
    assert Lower(".txt") == ".txt";
    SuffixIsExt(q, ".txt");
  }
}
