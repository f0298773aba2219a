# YoutubeToMP3 title cleaning and download decisions, in Dafny

YoutubeToMP3 is a Telegram bot. It takes a YouTube link, downloads the
audio as MP3, tags the file with a cleaned title, the uploader and a cover
picture, and sends it back. Its one piece of real logic is `clean_title`
in `main.py`. This function drops promotional groups such as
"(Official Video)", "(Audio)" or "[Remastered]" from a video title. It
keeps featured-artist credits such as "(feat. X)".

This project models `clean_title` and the small decisions around it:

- which messages count as links;
- which downloaded file is sent;
- which thumbnail becomes the cover, and the MIME type it is declared with;
- which title the tag carries when tagging fails.

It then proves what these promise.

Modules:

- `Strings` (`strings.dfy`): ASCII case folding, Python's `str.isspace`
  set, `startswith`/`endswith`, and substring tests with and without case.
- `Patterns` (`patterns.dfy`): the three regular-expression shapes
  `clean_title` uses, and `re.sub(p, '', s)` / `re.findall(p, s)` over
  them with `re.IGNORECASE`.
  - `\([^)]*keyword[^)]*\)` is `Noise(keyword)`.
  - `\[[^\]]*\]` is `Bracketed`.
  - `\(tag[^)]*\)` is `Credit(tag)`.
  - A match runs from the opening character to the first closing one.
    After a match the scan resumes past it; otherwise it resumes one
    character on.
- `Whitespace` (`whitespace.dfy`): `re.sub(r'\s+', ' ', s).strip()`, and
  the normal form it produces.
- `TitleCleaner` (`title_cleaner.dfy`): `clean_title` as its three loops
  (`CollectFeatMatches`, `RunRemovalPasses`, `AppendMissingFeats`) and
  `CleanTitle`, each proved against the specification functions
  `CollectFeats`, `RemoveNoise`, `AppendFeats` and `Clean`. Also the
  properties of `Clean`.
- `TitleExamples` (`title_examples.dfy`): worked titles. Most are a whole
  family: any normal-form title, any gap of at most one space, then the
  group. The two bracket-inside-a-group titles are the group alone, with
  no title before it.
- `Cover` (`cover.dfy`): `os.path.join`, `get_thumbnail_path` as a loop
  with an early return, and the MIME choice.
- `Handler` (`handler.dfy`): the decisions `handle_message` and
  `add_metadata` take. Directory listings, the outcome of the thumbnail
  fetch, whether the cover file exists, and the point at which tagging
  fails are all inputs.

### Where the code and its description differ (the model follows the code)

- **Credit order.** Credits come out pattern by pattern: every `ft.` group,
  then every `feat.` group, then every `featuring` group. They are not in
  order of first appearance (`CollectFeatsOrder`).
- **Chained passes.** The removal passes are chained: each runs over the
  previous pass's output, not over the original title. Because the bracket
  pass runs last, "(au[x]dio)" comes out as "(audio)"
  (`BracketInsideAudioGroup`).
- **Credits that hold a keyword.** A credit group holding a noise keyword
  is removed and then appended again after one space. "Song (feat.
  Official X)" is returned unchanged, but a title that is only that group
  gains a leading space (`FeatWithKeywordRestored` with an empty `u`).
- **`.jpeg` thumbnails.** A `.jpeg` thumbnail is not picked up as a cover;
  only `.jpg`, `.webp` and `.png` are (`JpegIsNoThumbnail`).
- **Case-sensitive suffixes.** The MIME test is case-sensitive, so `.PNG`
  is declared `image/jpeg` (`UpperCasePngIsJpeg`).
- **Tagging failure.** When opening the file fails, `add_metadata` does not
  return a title. It raises, because `title` is still unbound (see
  Findings).

## Model

| member | source | states |
|---|---|---|
| TitleCleaner.CleanTitle | main.py:23-53 | returns `Clean(title)`: credits collected from the raw title, the 15 passes in order, whitespace normalised, missing credits re-appended |
| TitleCleaner.CollectFeatMatches | main.py:35-40 | the loop's list is the concatenation of each credit pattern's `findall`, pattern by pattern |
| TitleCleaner.RunRemovalPasses | main.py:42-44 | the loop's result is the passes applied one after another, each to the previous output |
| TitleCleaner.AppendMissingFeats | main.py:48-51 | the loop's result is `AppendFeats`: each credit not already a case-sensitive substring is added after one space |
| TitleCleaner.CleanShape | main.py:35-53 | the result is a normal-form base followed by `" " + credit` pieces; the pieces are a subsequence of the collected credits in order, none already in the base, none twice; every collected credit is a verbatim piece of the title and is present in the result |
| TitleCleaner.AppendFeatsShape | main.py:48-51 | re-append only adds `" " + f` pieces for credits missing from the text, in order and without repeats, and leaves every credit present |
| TitleCleaner.AppendFeatsKeeps | main.py:48-51 | text present before the re-append is still present after it |
| TitleCleaner.CollectFeatsVerbatim | main.py:35-40 | every collected credit occurs verbatim (original casing) in the title and is one whole match of a credit pattern |
| TitleCleaner.CollectFeatsOrder | main.py:35-40 | credits come out as all `ft.` matches, then all `feat.` matches, then all `featuring` matches |
| TitleCleaner.CollectFeatsPlain | main.py:35-40 | a title without `(` has no credits |
| TitleCleaner.CleanPlainTitle | main.py:23-53 | a title without `(` and `[` maps to its whitespace-normalised form; one already normal comes back unchanged |
| TitleCleaner.RemoveNoiseLeavesNoBrackets | main.py:32 | after all passes no `[` is followed anywhere by `]` |
| TitleCleaner.RemoveNoiseSplit | main.py:43-44 | running the passes of `a` then those of `b` is running `a + b` |
| TitleCleaner.RemoveNoisePlain | main.py:43-44 | text without `(` and `[` passes through every pass unchanged |
| TitleCleaner.RemoveNoiseOnePass | main.py:43-44 | when only pass `k` changes anything, the chain gives pass `k`'s result |
| Patterns.MatchLengthSound | main.py:24-35 | a match found at a position is an opener, a run without the closer that the pattern admits, and the first closer |
| Patterns.MatchLengthComplete | main.py:24-35 | every such span is the match found there (the match is unique) |
| Patterns.SubLeavesNoMatch | main.py:43-44 | after a removal pass no match of its pattern is left anywhere |
| Patterns.SubIdempotent | main.py:43-44 | each removal pass applied to its own output changes nothing |
| Patterns.SubIgnoresKeywordCase | main.py:25-31 | keywords that differ only in letter case remove exactly the same groups |
| Patterns.SecondSpellingChangesNothing | main.py:25-31 | the capitalised pass after its lower-case twin removes nothing |
| Patterns.SubKeepsOnlyInputChars | main.py:43-44 | a pass only deletes characters: its output is a subsequence of its input, so it never introduces a character |
| Patterns.SubFixesNoMatch | main.py:43-44 | a pass over text without a match returns it unchanged |
| Patterns.SubSkipsPlain | main.py:43-44 | text without the opener is copied through |
| Patterns.SubOfGroup | main.py:43-44 | a group is dropped exactly when the pattern admits its contents, otherwise kept with the rest scanned |
| Patterns.SubPassesUnmatchedGroup | main.py:24-31 | a group without the keyword is kept whole, and scanning resumes after it |
| Patterns.FindAllVerbatim | main.py:39 | every `findall` result is a verbatim piece of the input and one whole match |
| Patterns.FindAllEmptyIff | main.py:39 | `findall` is empty exactly when there is no match anywhere |
| Patterns.FindAllOfGroup | main.py:39 | a credit group is found exactly when it begins with the tag |
| Patterns.NoBracketGroupLeft | main.py:32 | no bracket match left means no `[` followed later by `]` |
| Whitespace.NormalizeIsNormal | main.py:46 | the whitespace step gives text with no whitespace at either end and single plain spaces inside |
| Whitespace.NormalizeFixesNormal | main.py:46 | text already in normal form is unchanged |
| Whitespace.NormalizeKeepsVisible | main.py:46 | the whitespace step keeps every non-whitespace character in order |
| Whitespace.NormalizeDropsTrailingSpace | main.py:46 | a normal text followed by one space normalises to itself |
| Whitespace.CollapseIsCollapsed | main.py:46 | after collapsing, every whitespace character is a plain space followed by non-whitespace |
| Whitespace.NormalizeJoinsWithOneSpace | main.py:46 | a whitespace run of any length and kind between two normal texts becomes exactly one plain space |
| TitleExamples.OfficialVideoRemoved | main.py:23-53 | "… (Official Video)" becomes the title alone |
| TitleExamples.UpperCaseAudioRemoved | main.py:23-53 | "… (AUDIO)" becomes the title alone |
| TitleExamples.LowerCaseAudioRemoved | main.py:23-53 | "… (audio)" becomes the title alone |
| TitleExamples.RemasteredRemoved | main.py:23-53 | "… [Remastered 2020]" becomes the title alone |
| TitleExamples.KeptCreditThenNoiseGroup | main.py:35-51 | "u (feat. x) (g)", with no keyword in the credit and one in `g`, becomes "u (feat. x)": the noise group goes and the credit, already present, is not appended again |
| TitleExamples.FeatThenOfficialAudio | main.py:35-51 | "Track (feat. Artist B) (Official Audio)" becomes "Track (feat. Artist B)" |
| TitleExamples.PassesKeepCreditRemoveFinal | main.py:43-44 | passes that admit no earlier group keep it, and the first that admits the final group drops only that group |
| TitleExamples.CreditThenNoiseFeats | main.py:35-40 | of a credit group followed by a group no tag begins, only the credit group is collected |
| TitleExamples.FeatWithKeywordRestored | main.py:35-51 | "… (feat. Official X)", for any `X` without parentheses, comes back as the title, one space and the credit verbatim |
| TitleExamples.BracketInsideGroupRemoved | main.py:24-46 | for a title that is one parenthesised group `(a[b]c)` alone, with `a`, `b` and `c` each under four characters and bracket-free, no whitespace in `a` or `c`, and `a` non-empty and not starting with `f` or `F`: the bracketed part is removed by the last pass and the group, now `(ac)`, is kept |
| TitleExamples.BracketInsideAudioGroup | main.py:24-46 | "(au[x]dio)" becomes "(audio)" |
| TitleExamples.RemovedByKeywordPass | main.py:24-44 | a final group holding any of the seven keywords, in any letter case, is removed by the chain of passes, and the text before it is left as it was |
| TitleExamples.PassesRemoveFinalGroup | main.py:43-44 | a chain of passes whose pass `i` admits the final group, and whose earlier passes are all keyword passes, gives back exactly the text before that group |
| TitleExamples.CleanDropsFinalGroup | main.py:23-53 | a final group holding a keyword that no credit tag begins is dropped, with the gap before it |
| TitleExamples.CleanRestoresFinalFeat | main.py:23-53 | a final `feat.` group holding a keyword is removed and then appended again after exactly one space |
| TitleExamples.CleanDropsFinalBracket | main.py:23-53 | a final bracketed group is dropped, with the gap before it |
| Cover.GetThumbnailPath | main.py:79-83 | returns the directory joined to the first listed name ending `.jpg`, `.webp` or `.png`, and nothing exactly when no name does |
| Cover.Join | main.py:82 | an absolute name is the path; otherwise the path is exactly `dir + "/" + name` when `dir` is non-empty and lacks a trailing `/`, and `dir + name` otherwise |
| Cover.CoverMime | main.py:115-119 | `image/png` exactly for `.png`, `image/webp` exactly for `.webp`, `image/jpeg` exactly for every other path |
| Cover.ThumbnailMime | main.py:115-119 | a thumbnail from the listing is declared with the MIME type of its own extension |
| Cover.UpperCasePngIsJpeg | main.py:115-119 | `.PNG` is declared `image/jpeg` (the test is case-sensitive) |
| Cover.JpegIsNoThumbnail | main.py:81 | `.jpeg` and `.JPG` files are not thumbnails |
| Handler.LinkHoldsYoutu | main.py:153 | every accepted message contains `youtu` |
| Handler.ShortLinkAnywhere | main.py:153 | `youtu.be` anywhere in a message, with any text around it, is accepted |
| Handler.NoLowerYRefused | main.py:153 | a message without a lower-case `y` is refused, including the host in capitals |
| Handler.Mp3Files | main.py:163 | the comprehension keeps exactly the names ending `.mp3`, and its first element is the first such name of the listing |
| Handler.PickMp3 | main.py:163-167 | fails with "Failed to download audio" exactly when no name ends `.mp3`; otherwise gives the directory joined to the first one |
| Handler.ChooseCover | main.py:170-175 | the local thumbnail when there is one; otherwise a fetch exactly when the thumbnail URL is non-empty |
| Handler.CoverPath | main.py:170-175 | a local thumbnail is kept; without one and with a URL, a successful fetch gives `cover.jpg` in the directory and a failed one none |
| Handler.AttachedMime | main.py:113-119 | a picture is attached exactly for a truthy path whose file exists, declared `image/png` exactly for `.png`, `image/webp` exactly for `.webp`, and `image/jpeg` exactly for every other name |
| Handler.FetchedCoverIsJpeg | main.py:89-92 | a fetched cover is always declared `image/jpeg` |
| Handler.LocalCoverMime | main.py:113-119 | a local thumbnail, whatever the thumbnail URL and whether a download would succeed, is attached with the MIME type of its own extension |
| Handler.MetadataTitle | main.py:97-133 | the cleaned title when tagging succeeds, the raw title (`Unknown` when missing) after a late failure, and an error after a failure before `title` is bound |
| Handler.PlainTitleSurvivesTagging | main.py:97-133 | a normal title without `(` and `[` is returned as it is unless opening the file fails |
| Handler.MissingTitleIsUnknown | main.py:103-105 | without a title the tag reads `Unknown` |
| Handler.EarlyTagFailureRaises | main.py:97-133 | a failure while opening the file raises instead of falling back to the title |
| Handler.MetadataTitleBound | main.py:97-133 | with `title` bound first, every failure falls back to the raw title |
| Handler.BoundAgreesUnlessEarlyFailure | main.py:97-133 | the corrected version differs from the code exactly on failures before the title is read |

## Left out

- Downloading, transcoding and tag writing are calls into yt_dlp, ffmpeg
  and mutagen (main.py:55-77, 99-110, 121-129). They are foreign code; the
  model takes their observable results as inputs.
- The HTTP thumbnail fetch (main.py:85-95) is network I/O. It is the
  `fetchSucceeds` input of `Handler.CoverPath`.
- The directory listing (`os.listdir`) is a sequence given as input, in
  whatever order the file system returns it. `os.path.exists` is the
  `fileExists` input.
- The Telegram handlers, message edits, replies and the HTML caption
  (main.py:135-199) are transport and user interface.
- `/clear` and its username check (main.py:139-149) are file system side
  effects.
- The timestamped working directory (main.py:156-158) depends on the clock.
- Case folding is ASCII only. Python's `re.IGNORECASE` also matches a few
  non-ASCII letters against ASCII ones: dotless `ı` (U+0131) against `i`
  and long `ſ` (U+017F) against `s`. So "(audıo)" and "(verſion)" are
  removed by the source and kept by the model.
- `\s` and `str.strip()` are modelled by Python's `str.isspace` set for
  `str` patterns.
- No general regular-expression engine is modelled, only the three fixed
  shapes.
- `TitleExamples`: the worked titles are stated for a title in normal form
  without `(` or `[` before the final group, not for arbitrary prefixes.
  The general statements are `TitleCleaner.CleanShape` and
  `TitleCleaner.CleanPlainTitle`.
- The `logging.error` calls (main.py:94, 132, 197) only write to the log;
  they change no result and are not modelled.
- `TitleExamples.BracketInsideGroupRemoved` is stated only for the group
  alone with short pieces (see its row), not for every bracketed part
  inside a parenthesised group.
- `Handler.MetadataTitle`: the failure point is an input with three
  values. Which mutagen call raises, and why, is not modelled.

## Findings

| source | as written | input that shows it | evidently intended | confidence | as-written member | corrected member |
|---|---|---|---|---|---|---|
| main.py:97-133 | `title` is first assigned inside the `try`, after `MP3(...)` and `add_tags()`, so when either raises, the fallback `return title` raises `UnboundLocalError`, and the user gets an error reply instead of the file | an MP3 file that mutagen cannot open | on any tagging failure, fall back to the raw title and still send the file | not executed | Handler.EarlyTagFailureRaises | Handler.MetadataTitleBound |
