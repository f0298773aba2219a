/** The decisions `handle_message` (main.py:151-199) and `add_metadata`
    (main.py:97-133) take around the downloads: which messages are treated
    as links, which file is sent, where the cover comes from, and which
    title the tag and the reply carry. The downloads, the HTTP fetch and
    the tag writing themselves are inputs here. */
module Handler {
  import opened Strings
  import opened Whitespace
  import opened TitleCleaner
  import opened Cover

  datatype Result<T> = Success(value: T) | Failure(error: string)

  /** The link gate: a plain, case-sensitive substring test for either
      host, anywhere in the message. */
  predicate IsYouTubeLink(text: string)
  {
    Contains(text, "youtube.com") || Contains(text, "youtu.be")
  }

  /** Every message the gate lets through holds `youtu` (both hosts begin
      with it). */
  lemma {:induction false} LinkHoldsYoutu(text: string)
    requires IsYouTubeLink(text)
    ensures Contains(text, "youtu")
  {
    ContainsIff(text, "youtube.com");
    ContainsIff(text, "youtu.be");
    var w := if Contains(text, "youtube.com") then "youtube.com" else "youtu.be";
    var i :| OccursAt(text, w, i);
    assert text[i..i + 5] == text[i..i + |w|][..5] == "youtu";
    assert OccursAt(text, "youtu", i);
    ContainsIff(text, "youtu");
  }

  /** The gate is not anchored: a host name anywhere in the message, with
      any text around it, is accepted. */
  lemma ShortLinkAnywhere(before: string, after: string)
    ensures IsYouTubeLink(before + "youtu.be" + after)
  {
    ContainsSuffix(before, "youtu.be");
    ContainsPrefixOf(before + "youtu.be", after, "youtu.be");
  }

  /** The gate is case-sensitive: a message without a lower-case `y` is
      refused, even one spelling the host in capitals. */
  lemma NoLowerYRefused(text: string)
    requires 'y' !in text
    ensures !IsYouTubeLink(text)
  {
    ContainsHead(text, "youtube.com");
    ContainsHead(text, "youtu.be");
  }

  /** The `.mp3` names of the directory listing, in listing order (the list
      comprehension at main.py:163). */
  function Mp3Files(names: seq<string>): (mp3s: seq<string>)
    ensures forall f :: f in mp3s <==> f in names && EndsWith(f, ".mp3")
    ensures mp3s != [] ==>
      exists i :: 0 <= i < |names| && names[i] == mp3s[0] && EndsWith(names[i], ".mp3") &&
        forall j :: 0 <= j < i ==> !EndsWith(names[j], ".mp3")
  {
    if names == [] then []
    else
      var rest := Mp3Files(names[1..]);
      if EndsWith(names[0], ".mp3") then
        assert forall f :: f in [names[0]] + rest <==> f == names[0] || f in rest;
        [names[0]] + rest
      else
        assert rest != [] ==> exists i :: (1 <= i < |names| && names[i] == rest[0] &&
          EndsWith(names[i], ".mp3") && forall j :: 0 <= j < i ==> !EndsWith(names[j], ".mp3")) by {
          if rest != [] {
            var i :| 0 <= i < |names[1..]| && names[1..][i] == rest[0] && EndsWith(names[1..][i], ".mp3") &&
              forall j :: 0 <= j < i ==> !EndsWith(names[1..][j], ".mp3");
            assert names[i + 1] == rest[0];
            forall j | 0 <= j < i + 1 ensures !EndsWith(names[j], ".mp3") {
              if j > 0 { assert names[j] == names[1..][j - 1]; }
            }
          }
        }
        rest
  }

  /** The file that is tagged and sent: the first `.mp3` of the listing,
      joined to the directory, or the failure the reply reports as
      "Failed to download audio" when the listing has none. */
  function PickMp3(dir: string, names: seq<string>): (r: Result<string>)
    ensures r.Failure? <==> forall i :: 0 <= i < |names| ==> !EndsWith(names[i], ".mp3")
    ensures r.Failure? ==> r.error == "Failed to download audio"
    ensures r.Success? ==>
      exists i :: 0 <= i < |names| && EndsWith(names[i], ".mp3") &&
        (forall j :: 0 <= j < i ==> !EndsWith(names[j], ".mp3")) &&
        r.value == Join(dir, names[i])
  {
    var mp3s := Mp3Files(names);
    if mp3s == [] then
      assert forall i :: 0 <= i < |names| ==> !EndsWith(names[i], ".mp3") by {
        forall i | 0 <= i < |names| ensures !EndsWith(names[i], ".mp3") {
          assert names[i] in names;
        }
      }
      Failure("Failed to download audio")
    else
      assert mp3s[0] in mp3s;
      Success(Join(dir, mp3s[0]))
  }

  /** Where the cover comes from (main.py:170-175). */
  datatype CoverSource =
    | /** The thumbnail found in the download directory. */
      LocalThumbnail(path: string)
    | /** The `thumbnail` URL of the video's metadata, fetched over HTTP. */
      FetchThumbnail(url: string)
    | /** Neither: the file is tagged without a picture. */
      NoCover

  /** Python truthiness of an optional path: `None` and `""` are false. */
  predicate Truthy(path: Option<string>)
  {
    path.Some? && path.value != ""
  }

  /** The local thumbnail first; only without one, and only when the
      metadata holds a non-empty thumbnail URL (`info.get('thumbnail', '')`,
      so a missing key is the empty string), is the URL fetched. */
  function ChooseCover(local: Option<string>, thumbnailUrl: string): (source: CoverSource)
    ensures source.LocalThumbnail? <==> Truthy(local)
    ensures source.LocalThumbnail? ==> source.path == local.value
    ensures source.FetchThumbnail? <==> !Truthy(local) && thumbnailUrl != ""
    ensures source.FetchThumbnail? ==> source.url == thumbnailUrl
  {
    if Truthy(local) then LocalThumbnail(local.value)
    else if thumbnailUrl != "" then FetchThumbnail(thumbnailUrl)
    else NoCover
  }

  /** The cover path handed to the tagging step. A fetch that succeeds
      (HTTP status 200, no exception) saves the picture as `cover.jpg` in
      the directory; a failed fetch leaves no cover. With neither source
      the path is whatever the thumbnail search gave. */
  function CoverPath(dir: string, local: Option<string>, thumbnailUrl: string, fetchSucceeds: bool)
    : (cover: Option<string>)
    ensures Truthy(local) ==> cover == local
    ensures !Truthy(local) && thumbnailUrl != "" ==>
      cover == (if fetchSucceeds then Some(Join(dir, "cover.jpg")) else None)
    ensures !Truthy(local) && thumbnailUrl == "" ==> cover == local
  {
    match ChooseCover(local, thumbnailUrl)
    case LocalThumbnail(path) => Some(path)
    case FetchThumbnail(_) => if fetchSucceeds then Some(Join(dir, "cover.jpg")) else None
    case NoCover => local
  }

  /** The MIME type of the picture frame, when one is attached: only for a
      truthy cover path whose file exists (main.py:113). */
  function AttachedMime(cover: Option<string>, fileExists: bool): (mime: Option<string>)
    ensures mime.Some? <==> Truthy(cover) && fileExists
    ensures mime.Some? ==> mime.value in {"image/png", "image/webp", "image/jpeg"}
    ensures mime.Some? ==> (mime.value == "image/png" <==> EndsWith(cover.value, ".png"))
    ensures mime.Some? ==> (mime.value == "image/webp" <==> EndsWith(cover.value, ".webp"))
    ensures mime.Some? ==>
      (mime.value == "image/jpeg" <==> !EndsWith(cover.value, ".png") && !EndsWith(cover.value, ".webp"))
  {
    if Truthy(cover) && fileExists then Some(CoverMime(cover.value)) else None
  }

  /** A fetched cover is always declared as `image/jpeg`, whatever format
      the server sent. */
  lemma FetchedCoverIsJpeg(dir: string, thumbnailUrl: string)
    requires thumbnailUrl != ""
    ensures AttachedMime(CoverPath(dir, None, thumbnailUrl, true), true) == Some("image/jpeg")
  {
    JpgIsJpeg(Join(dir, "cover.jpg"));
  }

  /** A thumbnail found in the directory is declared with the MIME type
      of its own extension, whatever the metadata's thumbnail URL and
      however a fetch would have gone. */
  lemma LocalCoverMime(dir: string, name: string, thumbnailUrl: string, fetchSucceeds: bool)
    requires IsThumbnailName(name)
    ensures var mime := AttachedMime(CoverPath(dir, Some(Join(dir, name)), thumbnailUrl, fetchSucceeds), true);
      mime.Some? &&
      (EndsWith(name, ".png") ==> mime.value == "image/png") &&
      (EndsWith(name, ".webp") ==> mime.value == "image/webp") &&
      (EndsWith(name, ".jpg") ==> mime.value == "image/jpeg")
  {
    ThumbnailMime(dir, name);
    assert Join(dir, name) != "";
  }

  /** How far `add_metadata` got before something raised. */
  datatype TagFailure =
    | /** Nothing raised: the tags were written and saved. */
      NoFailure
    | /** Opening the file or creating its tag block raised (main.py:99-101),
          before `title` was bound. */
      BeforeTitle
    | /** Writing a frame, reading the cover or saving raised
          (main.py:107-129), after `title` was bound. */
      AfterTitle

  /** What `add_metadata` gives back. */
  datatype TagOutcome =
    | /** The title returned to the handler. */
      Titled(title: string)
    | /** The handler's `except` reports an error: the fallback
          `return title` itself raises, since `title` is unbound. */
      Raises

  /** `info.get('title', 'Unknown')`. */
  function TitleOrUnknown(rawTitle: Option<string>): (title: string)
  {
    if rawTitle.Some? then rawTitle.value else "Unknown"
  }

  /** The title `add_metadata` returns: the cleaned title when tagging
      succeeds, the raw title (`'Unknown'` when the metadata has none) when
      a later step raised, and no title at all when the file could not be
      opened. */
  function MetadataTitle(rawTitle: Option<string>, failure: TagFailure): (outcome: TagOutcome)
    ensures outcome.Raises? <==> failure == BeforeTitle
    ensures failure == NoFailure ==>
      outcome == Titled(Clean(TitleOrUnknown(rawTitle)))
    ensures failure == AfterTitle ==>
      outcome == Titled(TitleOrUnknown(rawTitle))
  {
    var title := TitleOrUnknown(rawTitle);
    match failure
    case NoFailure => Titled(Clean(title))
    case BeforeTitle => Raises
    case AfterTitle => Titled(title)
  }

  /** A title already in normal form and free of `(` and `[` is sent as it
      is whether or not tagging fails late; only a failure before the title
      is read loses it. */
  lemma PlainTitleSurvivesTagging(rawTitle: string, failure: TagFailure)
    requires '(' !in rawTitle && '[' !in rawTitle && Normal(rawTitle)
    ensures failure != BeforeTitle ==> MetadataTitle(Some(rawTitle), failure) == Titled(rawTitle)
    ensures failure == BeforeTitle ==> MetadataTitle(Some(rawTitle), failure).Raises?
  {
    assert TitleOrUnknown(Some(rawTitle)) == rawTitle;
    match failure
    case NoFailure => CleanPlainTitle(rawTitle);
    case AfterTitle =>
    case BeforeTitle =>
  }

  /** Without a title in the metadata, the file is tagged `Unknown`. */
  lemma MissingTitleIsUnknown()
    ensures MetadataTitle(None, NoFailure) == Titled("Unknown")
  {
    assert '(' !in "Unknown" && '[' !in "Unknown";
    forall i | 0 <= i < |"Unknown"| ensures !IsSpace("Unknown"[i]) {
    }
    assert Normal("Unknown");
    CleanPlainTitle("Unknown");
  }

  /** As written, a failure while opening the file loses the title: the
      fallback meant for failures is itself an error. */
  lemma EarlyTagFailureRaises(rawTitle: Option<string>)
    ensures MetadataTitle(rawTitle, BeforeTitle).Raises?
    ensures MetadataTitleBound(rawTitle, BeforeTitle).Titled?
  {
  }

  /** `add_metadata` with `title` read before the `try`, as the fallback
      `return title` evidently intends: every failure falls back to the raw
      title. */
  function MetadataTitleBound(rawTitle: Option<string>, failure: TagFailure): (outcome: TagOutcome)
    ensures outcome.Titled?
    ensures failure == NoFailure ==>
      outcome.title == Clean(TitleOrUnknown(rawTitle))
    ensures failure != NoFailure ==>
      outcome.title == TitleOrUnknown(rawTitle)
  {
    var title := TitleOrUnknown(rawTitle);
    if failure == NoFailure then Titled(Clean(title)) else Titled(title)
  }

  /** The corrected version differs from the code only where the code
      raises. */
  lemma BoundAgreesUnlessEarlyFailure(rawTitle: Option<string>, failure: TagFailure)
    ensures failure != BeforeTitle ==> MetadataTitleBound(rawTitle, failure) == MetadataTitle(rawTitle, failure)
    ensures failure == BeforeTitle ==> MetadataTitle(rawTitle, failure) != MetadataTitleBound(rawTitle, failure)
  {
  }
}
