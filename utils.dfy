/** The file-kind rules of utils.py: which loader a path gets, which paths
    count as processable images, the directory filter built on that, and
    the thumbnail-name test. The filesystem is a snapshot passed in. */
module Utils {
  import opened Wrappers
  import opened Paths

  /** What a path is in the snapshot: a regular file, or a directory with
      the entries `iterdir` yields, in that order. */
  datatype Node = File | Dir(entries: seq<Path>)

  type FileSystem = map<Path, Node>

  /** `Path.exists`, `Path.is_file`, `Path.is_dir`. */
  predicate Exists(fs: FileSystem, p: Path) { p in fs }

  predicate IsFile(fs: FileSystem, p: Path) { p in fs && fs[p].File? }

  predicate IsDir(fs: FileSystem, p: Path) { p in fs && fs[p].Dir? }

  /** The two loaders `ImageLoaderFactory` hands out. */
  datatype Loader = JpegImageLoader | RawImageLoader

  const JpegExtensions: set<string> := {".jpg", ".jpeg"}
  const RawExtensions: set<string> := {".nef", ".cr2", ".arw"}

  /** `processable_types`. */
  const ProcessableTypes: set<string> := {".nef", ".cr2", ".arw", ".jpg", ".jpeg", ".png", ".webp"}

  /** The lower-cased suffix every rule below keys on. */
  function Extension(p: Path): string
  {
    Lower(Suffix(p))
  }

  /** The loader the factory picks for a lower-cased extension. */
  function LoaderFor(ext: string): (r: Result<Loader, Error>)
    ensures r.Success? ==> ext in ProcessableTypes
    ensures r.Failure? ==> r.error == ValueError("Unsupported file extension: " + ext)
  {
    if ext in JpegExtensions then Success(JpegImageLoader)
    else if ext in RawExtensions then Success(RawImageLoader)
    else Failure(ValueError("Unsupported file extension: " + ext))
  }

  /** `ImageLoaderFactory.get_image_loader`. */
  function GetImageLoader(p: Path): (r: Result<Loader, Error>)
    ensures r.Success? ==> Extension(p) in ProcessableTypes && Suffix(p) != ""
    ensures r.Failure? ==> r.error == ValueError("Unsupported file extension: " + Extension(p))
  {
    LoaderFor(Extension(p))
  }

  /** Which extensions are served by which loader, and that everything else
      is refused: .png and .webp are processable but have no loader. */
  lemma LoaderByExtension(ext: string)
    ensures LoaderFor(ext) == Success(JpegImageLoader) <==> ext == ".jpg" || ext == ".jpeg"
    ensures LoaderFor(ext) == Success(RawImageLoader) <==> ext == ".nef" || ext == ".cr2" || ext == ".arw"
    ensures ext in ProcessableTypes && LoaderFor(ext).Failure? <==> ext == ".png" || ext == ".webp"
  {
  }

  /** A path with suffix ".jpg" is processable as soon as it exists. */
  lemma JpgIsProcessable(p: Path)
    requires Suffix(p) == ".jpg"
    ensures Extension(p) == ".jpg" && Extension(p) in ProcessableTypes
    ensures GetImageLoader(p) == Success(JpegImageLoader)
  {
    LowerOfLowercase(".jpg");
  }

  /** Letter case in the extension does not matter: "DSC_1.NEF" is a raw
      file to both the factory and the processable test. */
  lemma {:induction false} UppercaseExtensionIsRaw(fs: FileSystem, p: Path)
    requires Suffix(p) == ".NEF" && Exists(fs, p)
    ensures Extension(p) == ".nef"
    ensures GetImageLoader(p) == Success(RawImageLoader)
    ensures IsProcessableImg(fs, p)
  {
    assert Lower(".NEF") == ".nef";
  }

  /** `is_processable_img`: a processable extension, in any letter case,
      and the path exists. */
  predicate IsProcessableImg(fs: FileSystem, p: Path): (b: bool)
    ensures b ==> Exists(fs, p) && |Suffix(p)| >= 4
  {
    if Extension(p) in ProcessableTypes && Exists(fs, p) then
      ProcessableTypesAreLong(Extension(p));
      true
    else false
  }

  /** Every processable extension is a dot and at least three letters. */
  lemma ProcessableTypesAreLong(ext: string)
    requires ext in ProcessableTypes
    ensures |ext| >= 4
  {
  }

  /** The loader factory and the processable test agree except on .png and
      .webp: an existing file the factory serves is processable, and a
      processable file the factory refuses has one of those two extensions. */
  lemma {:induction false} LoaderServesProcessableImages(fs: FileSystem, p: Path)
    ensures GetImageLoader(p).Success? && Exists(fs, p) ==> IsProcessableImg(fs, p)
    ensures IsProcessableImg(fs, p) && GetImageLoader(p).Failure? <==>
      Exists(fs, p) && (Extension(p) == ".png" || Extension(p) == ".webp")
  {
    LoaderByExtension(Extension(p));
  }

  /** The test `get_processable_img` applies to each entry. */
  predicate Keeps(fs: FileSystem, p: Path)
  {
    IsFile(fs, p) && IsProcessableImg(fs, p)
  }

  /** The entries of a listing that `get_processable_img` keeps, in listing
      order. */
  function ProcessableEntries(fs: FileSystem, entries: seq<Path>): (r: seq<Path>)
    ensures |r| <= |entries|
  {
    if entries == [] then []
    else
      var last := entries[|entries| - 1];
      ProcessableEntries(fs, entries[..|entries| - 1]) + (if Keeps(fs, last) then [last] else [])
  }

  /** The filter keeps exactly the entries that are processable files. */
  lemma {:induction false} ProcessableEntriesMembers(fs: FileSystem, entries: seq<Path>, p: Path)
    ensures p in ProcessableEntries(fs, entries) <==> p in entries && Keeps(fs, p)
  {
    if entries != [] {
      var init := entries[..|entries| - 1];
      ProcessableEntriesMembers(fs, init, p);
      assert entries == init + [entries[|entries| - 1]];
    }
  }

  /** Filtering a listing piecewise and concatenating gives the filter of the
      whole listing: the filter keeps listing order. */
  lemma {:induction false} ProcessableEntriesAppend(fs: FileSystem, a: seq<Path>, b: seq<Path>)
    ensures ProcessableEntries(fs, a + b) == ProcessableEntries(fs, a) + ProcessableEntries(fs, b)
    decreases |b|
  {
    if b == [] {
      assert a + b == a;
    } else {
      var last := b[|b| - 1];
      assert (a + b)[..|a + b| - 1] == a + b[..|b| - 1];
      ProcessableEntriesAppend(fs, a, b[..|b| - 1]);
    }
  }

  /** `get_processable_img`: refuse a path that is not a directory,
      otherwise keep the processable files of its listing. */
  method GetProcessableImg(fs: FileSystem, path: Path) returns (r: Result<seq<Path>, Error>)
    ensures !IsDir(fs, path) ==> r == Failure(ValueError("Not path"))
    ensures IsDir(fs, path) ==> r == Success(ProcessableEntries(fs, fs[path].entries))
  {
    if !IsDir(fs, path) {
      return Failure(ValueError("Not path"));
    }
    var entries := fs[path].entries;
    var pathList: seq<Path> := [];
    for i := 0 to |entries|
      invariant pathList == ProcessableEntries(fs, entries[..i])
    {
      var p := entries[i];
      assert entries[..i + 1][..i] == entries[..i];
      if IsFile(fs, p) && IsProcessableImg(fs, p) {
        pathList := pathList + [p];
      }
    }
    assert entries[..|entries|] == entries;
    return Success(pathList);
  }

  /** `is_thumb`: a case-sensitive test of the whole path string. */
  predicate IsThumb(p: Path): (b: bool)
    ensures b ==> EndsWith(Name(p), ".thumb.jpg") && Suffix(p) == ".jpg"
  {
    if EndsWith(p, ".thumb.jpg") then
      NameKeepsTail(p, ".thumb.jpg");
      ThumbNameSuffix(p);
      true
    else false
  }

  /** A path ending in a tail without '/' has a final component ending in
      that tail. */
  lemma {:induction false} NameKeepsTail(p: Path, tail: string)
    requires '/' !in tail && EndsWith(p, tail)
    ensures EndsWith(Name(p), tail)
  {
    var head := p[..|p| - |tail|];
    assert head + tail == p;
    LastIndexOfAppend(head, tail, '/');
  }

  /** In a name ending in ".thumb.jpg" the suffix dot is the one before
      "jpg". */
  lemma {:induction false} ThumbNameDot(n: string)
    requires EndsWith(n, ".thumb.jpg")
    ensures HasSuffixDot(n) && n[SuffixDot(n)..] == ".jpg"
  {
    var base := n[..|n| - 4];
    assert n[|n| - 4..] == n[|n| - 10..][6..];
    assert n == base + ".jpg";
    DotOfExtended(base, ".jpg");
  }

  /** A name ending in ".thumb.jpg" has the suffix ".jpg". */
  lemma {:induction false} ThumbNameSuffix(p: Path)
    requires EndsWith(Name(p), ".thumb.jpg")
    ensures Suffix(p) == ".jpg"
  {
    ThumbNameDot(Name(p));
  }

  /** Whatever `is_thumb` accepts is a JPEG by the extension rules, so it is
      processable and gets the JPEG loader. */
  lemma {:induction false} ThumbIsProcessableJpeg(p: Path)
    requires IsThumb(p)
    ensures Suffix(p) == ".jpg"
    ensures Extension(p) in ProcessableTypes
    ensures GetImageLoader(p) == Success(JpegImageLoader)
  {
    JpgIsProcessable(p);
  }

  /** The test is case-sensitive in the whole string. */
  lemma ThumbTestIsCaseSensitive()
    ensures IsThumb("x.thumb.jpg")
    ensures !IsThumb("x.THUMB.JPG")
  {
    assert "x.THUMB.JPG"[1..] != ".thumb.jpg" by {
      assert "x.THUMB.JPG"[1..][1] == 'T';
    }
  }
}
