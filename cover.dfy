/** The cover art of the tagged file: the first thumbnail in the download
    directory (`get_thumbnail_path`, main.py:79-83) and the MIME type the
    picture frame declares for it (main.py:115-119). */
module Cover {
  import opened Strings

  /** `os.path.join(dir, name)` on POSIX: an absolute name replaces the
      directory, otherwise one `/` goes between them unless the directory is
      empty or already ends with one. */
  function Join(dir: string, name: string): (path: string)
    ensures EndsWith(path, name)
    ensures StartsWith(name, "/") ==> path == name
    ensures !StartsWith(name, "/") ==> path == dir + name || path == dir + "/" + name
    ensures !StartsWith(name, "/") && dir != [] && !EndsWith(dir, "/") ==> path == dir + "/" + name
    ensures !StartsWith(name, "/") && (dir == [] || EndsWith(dir, "/")) ==> path == dir + name
  {
    if StartsWith(name, "/") then name
    else if dir == [] || EndsWith(dir, "/") then dir + name
    else dir + "/" + name
  }

  /** The case-sensitive `endswith(('.jpg', '.webp', '.png'))` test. */
  predicate IsThumbnailName(name: string)
  {
    EndsWith(name, ".jpg") || EndsWith(name, ".webp") || EndsWith(name, ".png")
  }

  /** `get_thumbnail_path`: the directory listing is scanned in the order it
      comes, and the first thumbnail name is joined to the directory; when
      no name qualifies there is no path. */
  method GetThumbnailPath(dir: string, names: seq<string>) returns (path: Option<string>)
    ensures path.None? <==> forall i :: 0 <= i < |names| ==> !IsThumbnailName(names[i])
    ensures path.Some? ==>
      exists i :: 0 <= i < |names| && IsThumbnailName(names[i]) &&
        (forall j :: 0 <= j < i ==> !IsThumbnailName(names[j])) &&
        path.value == Join(dir, names[i])
  {
    var k := 0;
    while k < |names|
      invariant 0 <= k <= |names|
      invariant forall j :: 0 <= j < k ==> !IsThumbnailName(names[j])
    {
      if IsThumbnailName(names[k]) {
        return Some(Join(dir, names[k]));
      }
      k := k + 1;
    }
    return None;
  }

  /** The MIME type of the attached picture: `image/png` and `image/webp`
      for those exact (case-sensitive) endings, `image/jpeg` for every
      other path. */
  function CoverMime(path: string): (mime: string)
    ensures mime == "image/png" <==> EndsWith(path, ".png")
    ensures mime == "image/webp" <==> EndsWith(path, ".webp")
    ensures mime == "image/jpeg" <==> !EndsWith(path, ".png") && !EndsWith(path, ".webp")
  {
    assert EndsWith(path, ".png") ==> path[|path| - 1] == 'g';
    assert EndsWith(path, ".webp") ==> path[|path| - 1] == 'p';
    if EndsWith(path, ".png") then "image/png"
    else if EndsWith(path, ".webp") then "image/webp"
    else "image/jpeg"
  }

  /** A suffix of a suffix is a suffix. */
  lemma EndsWithTransitive(s: string, t: string, u: string)
    requires EndsWith(s, t) && EndsWith(t, u)
    ensures EndsWith(s, u)
  {
    assert s[|s| - |u|..] == s[|s| - |t|..][|t| - |u|..];
  }

  /** A thumbnail found in the directory is declared with the MIME type its
      own extension names: `.png` and `.webp` as themselves, `.jpg` as
      `image/jpeg`. */
  lemma ThumbnailMime(dir: string, name: string)
    requires IsThumbnailName(name)
    ensures EndsWith(name, ".png") ==> CoverMime(Join(dir, name)) == "image/png"
    ensures EndsWith(name, ".webp") ==> CoverMime(Join(dir, name)) == "image/webp"
    ensures EndsWith(name, ".jpg") ==> CoverMime(Join(dir, name)) == "image/jpeg"
  {
    var path := Join(dir, name);
    if EndsWith(name, ".png") {
      EndsWithTransitive(path, name, ".png");
    }
    if EndsWith(name, ".webp") {
      EndsWithTransitive(path, name, ".webp");
    }
    if EndsWith(name, ".jpg") {
      EndsWithTransitive(path, name, ".jpg");
      JpgIsJpeg(path);
    }
  }

  /** A `.jpg` path is declared `image/jpeg`. */
  lemma JpgIsJpeg(path: string)
    requires EndsWith(path, ".jpg")
    ensures CoverMime(path) == "image/jpeg"
  {
    assert path[|path| - 1] == 'g' && path[|path| - 4..] == ".jpg";
    assert path[|path| - 4..][0] == '.' && path[|path| - 4..][1] == 'j';
  }

  /** The suffix test is case-sensitive: an upper-case `.PNG` picture is
      declared as `image/jpeg`. */
  lemma UpperCasePngIsJpeg(stem: string)
    ensures CoverMime(stem + ".PNG") == "image/jpeg"
  {
    var path := stem + ".PNG";
    assert path[|path| - 1] == 'G';
  }

  /** A `.jpeg` file is not a thumbnail, and neither is an upper-case
      extension. */
  lemma JpegIsNoThumbnail(stem: string)
    ensures !IsThumbnailName(stem + ".jpeg")
    ensures !IsThumbnailName(stem + ".JPG")
  {
    var a := stem + ".jpeg";
    var b := stem + ".JPG";
    assert a[|a| - 1] == 'g' && a[|a| - 2] == 'e';
    assert b[|b| - 1] == 'G';
  }
}
