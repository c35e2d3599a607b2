# A verified model of the photography-site gallery core

This project models, in Dafny, the sequential logic of a self-hosted photo
gallery: a server that scans a directory tree of photos, reads their EXIF,
IPTC and XMP metadata, keeps thumbnails and other derived images fresh on
disk, and serves a JSON API to a single-page browsing client. Each piece of
logic is stated as a pure function over explicit inputs, and its contract is
proved.

The run-time world becomes inputs:

- the filesystem is one snapshot tree (`FileSystem.Node`), rooted at the
  photos directory;
- the results of the image libraries (sharp, exif-reader, iptc-reader,
  ffprobe, ffmpeg, marked) are plain parameters;
- JavaScript `Date` parsing and formatting are abstract functions.

The modules follow the program:

- `Scanner` (scanner.ts):
  - the hidden-name filter and the image-extension filter;
  - the album order;
  - cover choice, `updatedAt`, and the album record;
  - the album / group classification of `scanAlbums`.
- `Metadata` (scanner.ts):
  - GCD reduction and the aspect-ratio label;
  - keyword extraction from IPTC, `dc:subject` and `lr:hierarchicalSubject`;
  - the EXIF record;
  - the mtime-checked metadata cache.
- `Password`, `Auth`, `ApiKeyAuth` (password.ts, auth.ts, apiKeyAuth.ts): the
  per-session unlock list, the `/check` and `/unlock` decisions, and the API
  key gate.
- `AlbumsRoute` (albums.ts): the album-or-group detail response, the locked
  response, the group listing, and `formatName`, which lives in `Text`.
- `OgTags`, `Share` (index.ts, ShareButton.tsx): Open Graph image paths,
  titles and covers, and the share URL that round-trips with them.
- `Thumbnail`, `ThumbnailQueue`, `VideoThumbnail`, `SocialExport`:
  - the path mappings of the derived files;
  - the shared "fresh iff the output is at least as new as the source"
    pattern;
  - the pre-generation queue;
  - video frame choice;
  - social-export presets and the centre-crop plan.
- `Markdown` (markdown.ts): the custom image renderer.
- `Frequency`, `Stats`, `TagsRoute`, `SearchRoute`, `MapRoute`,
  `TimelineRoute`, `Collection`: the aggregations over every scanned image.
  These are the frequency tables, the 12-hour clock round trip, tag counts,
  keyword search, GPS filtering, the timeline order, its pagination and its
  time-to-live cache.
- `Analytics` (analytics.ts): view and visitor counters with a dirty flag.
- `Lightbox`, `TripDays`, `TripDaysGrid`, `TimelinePage`, `GroupPage`,
  `TagCloud`: the client's index state machine, day grouping with
  prefix-sum indices, month runs, photo sorting with undated photos last,
  and the seeded Fisher–Yates shuffle.
- `Wrappers`, `Seqs`, `Sorting`, `Text`, `Paths`, `FileSystem`, `Config`,
  `Types`, `Numbers`: shared vocabulary.
  - `Sorting.SortBy` is the stable sort that `Array.prototype.sort` is.
  - `Text.LexLe` is code-point order, since a Dafny `char` is a Unicode
    scalar value. It stands here for both `localeCompare` and the default
    sort.
  - `Types` holds the records of `server/src/types.ts`.

A JavaScript `Map` is an association list with distinct keys, in insertion
order. Paths are photos-directory-relative strings split on `/`.

## Model

| member | source | states |
|---|---|---|
| Password.StripAlbumsPrefix | server/src/services/password.ts:6 | a leading `albums/` is removed and nothing else; other paths pass unchanged |
| Password.GetAlbumPassword | server/src/services/password.ts:5-12 | the password is present exactly when `password.txt` exists in the album's directory, and is then its content trimmed |
| Password.IsAlbumUnlocked | server/src/services/password.ts:14-18 | unlocked iff the album has no non-blank password or the session's list holds the album path |
| Password.UnlockAlbum | server/src/services/password.ts:20-27 | the list afterwards exists, holds the path, and is the old list (or the empty one) with the path appended only when it was missing |
| Password.UnlockKeepsDistinct | server/src/services/password.ts:24-26 | a list without repeats stays without repeats |
| Password.UnlockIdempotent | server/src/services/password.ts:24-26 | unlocking twice equals unlocking once |
| Password.UnlockThenUnlocked | server/src/services/password.ts:14-27 | after unlocking, the album reads as unlocked and every album unlocked before still is |
| Password.UnlockAllDistinct | server/src/services/password.ts:20-27 | any sequence of unlocks keeps the list repeat-free, contains every unlocked path and never loses an earlier one |
| Auth.Check | server/src/routes/auth.ts:7-20 | 400 exactly when albumPath is missing or empty; otherwise hasPassword is "non-blank password" and isUnlocked is the lock decision, so no password implies unlocked |
| Auth.Unlock | server/src/routes/auth.ts:23-44 | the four outcomes (400, no password needed, success, 401) each iff their condition; only success changes the session, by unlocking the album |
| Auth.UnlockThenCheck | server/src/routes/auth.ts:38-40 | after a successful unlock, /check reports a password and an unlocked album |
| Auth.WrongPasswordKeepsLock | server/src/routes/auth.ts:41-43 | a 401 leaves a locked album locked |
| Auth.SubmittedPasswordIsNotTrimmed | server/src/routes/auth.ts:38 | the stored password with a leading space is refused with 401 |
| ApiKeyAuth.Authorize | server/src/middleware/apiKeyAuth.ts:4-18 | 500 when no key is configured, 401 when the header differs, and next() iff the key is non-empty and the header equals it |
| ApiKeyAuth.NoKeyNoEntry | server/src/middleware/apiKeyAuth.ts:7-15 | without a configured key every request gets 500; a request without the header never proceeds |
| AlbumsRoute.SortedImageNames | server/src/routes/albums.ts:94-96 | exactly the image-named entries (hidden ones included), as a permutation of the filtered listing, in code-point order; none for a missing directory |
| AlbumsRoute.SortedSubAlbumNames | server/src/routes/albums.ts:86-91 | exactly the subdirectories not starting with `.`, each as often as listed, in code-point order |
| AlbumsRoute.SubAlbumOf | server/src/routes/albums.ts:92-107 | name, slug and path of the sub-album; the count is its image-named entries; the cover exists iff the count is positive and is the least image name; hasPassword iff `password.txt` exists |
| AlbumsRoute.AlbumDetail | server/src/routes/albums.ts:23-118 | 400 iff the path escapes, 404 iff not a directory; locked album, open album, group or empty directory each iff its condition; the fields of each response |
| AlbumsRoute.ImagesWinOverSubdirectories | server/src/routes/albums.ts:48-54 | a directory with an image-named entry is an album even when it also has subdirectories |
| AlbumsRoute.SynologyFolderIsSubAlbum | server/src/routes/albums.ts:49-52 | the `@eadir` folder hidden by the tree scan is a sub-album here |
| AlbumsRoute.LockedCountIncludesHidden | server/src/routes/albums.ts:65 | a locked album counts a `._` resource-fork file that the open album would not list |
| Analytics.RecordAlbumView | server/src/services/analytics.ts:66-69 | that album's count goes up by one, every other album's count and the other fields are unchanged, the state is dirty, and distinct keys stay distinct |
| Analytics.RecordPhotoView | server/src/services/analytics.ts:71-74 | the same for the photo counters |
| Analytics.RecordIP | server/src/services/analytics.ts:76-81 | the visitor set gains exactly the address; a known address changes nothing; a new one grows the list by one and sets dirty; dirty afterwards iff dirty before or the address was new |
| Analytics.RecordIPIdempotent | server/src/services/analytics.ts:76-81 | recording the same address twice is recording it once |
| Analytics.Flush | server/src/services/analytics.ts:46-58 | a clean state writes nothing; a dirty state with a successful write stores exactly the counters and the visitors and comes back clean; a failed write leaves the state dirty and unchanged |
| Analytics.FlushSettles | server/src/services/analytics.ts:47 | after a successful flush, a second flush writes nothing and changes nothing |
| Analytics.TotalBump | server/src/services/analytics.ts:84-85 | one recorded view adds exactly one to the summed counts |
| Analytics.Top | server/src/services/analytics.ts:87-95 | at most ten entries (fewer only when there are fewer), all drawn from the counters, in non-increasing count order |
| Analytics.TopIsTop | server/src/services/analytics.ts:87-95 | every entry left out has a count no larger than any entry kept |
| Analytics.GetSummary | server/src/services/analytics.ts:83-104 | totalViews is the sum of album and photo views, uniqueVisitors is the length of the visitor list, and both top lists are bounded, drawn from their counters and ordered |
| Analytics.DistinctCount | server/src/services/analytics.ts:99 | the visitor list has no repeats, so its length is the number of distinct visitors |
| Analytics.ReplayAlbums | server/src/services/analytics.ts:66-69 | from the empty state, the album counters after any event history are the tally of the album views in it |
| Analytics.ReplayPhotos | server/src/services/analytics.ts:71-74 | the photo counters are the tally of the photo views |
| Analytics.ReplayVisitors | server/src/services/analytics.ts:76-81 | the visitor list is the visits' addresses in first-seen order without repeats |
| Analytics.ReplayDirty | server/src/services/analytics.ts:66-81 | the state is dirty iff any event was recorded, and it stays well-formed |
| Analytics.ReplaySummary | server/src/services/analytics.ts:83-104 | totalViews counts the view events, each path's count is its number of views, and uniqueVisitors is the number of distinct addresses |
| Analytics.TallyTotal | server/src/services/analytics.ts:84-85 | the counts of a tally add up to the number of keys tallied |
| Lightbox.Open | client/src/hooks/useLightbox.ts:7-9 | the lightbox is open at exactly the given index, whatever it is |
| Lightbox.Close | client/src/hooks/useLightbox.ts:11-13 | the lightbox is closed |
| Lightbox.Next | client/src/hooks/useLightbox.ts:15-19 | one step forward when hasNext holds, otherwise no change |
| Lightbox.Prev | client/src/hooks/useLightbox.ts:21-25 | one step back when hasPrev holds, otherwise no change |
| Lightbox.NavigateTo | client/src/hooks/useLightbox.ts:27-31 | jumps to the index iff it addresses an image, otherwise no change |
| Lightbox.CurrentImage | client/src/hooks/useLightbox.ts:48 | an image iff the lightbox is open on an index inside the list, and then the image at that index |
| Lightbox.StaysInRange | client/src/hooks/useLightbox.ts:15-31 | an index inside the list stays inside under next, prev, navigateTo and close |
| Lightbox.OpenUnchecked | client/src/hooks/useLightbox.ts:7-9 | open accepts an index one past the end, which shows no image |
| Lightbox.MovesIffPossible | client/src/hooks/useLightbox.ts:49-56 | next changes the state iff hasNext, prev iff hasPrev |
| Lightbox.NextPrevInverse | client/src/hooks/useLightbox.ts:15-25 | inside the list prev undoes next and next undoes prev; an index opened at -1 does not come back |
| Lightbox.HandleKey | client/src/hooks/useLightbox.ts:33-44 | closed: keys do nothing; open: Escape closes, ArrowRight is next, ArrowLeft is prev, other keys do nothing |
| Lightbox.HoldRight | client/src/hooks/useLightbox.ts:33-44 | n presses of ArrowRight from i land on min(i + n, last) |
| Lightbox.HoldLeft | client/src/hooks/useLightbox.ts:33-44 | n presses of ArrowLeft from i land on max(i - n, 0) |
| TripDays.DayKey | client/src/utils/tripDays.ts:32-37 | a key exists only for a present date that the date function maps to a non-empty key, and is that key |
| TripDays.SortedKeys | client/src/utils/tripDays.ts:61-77 | the distinct day keys of the dated photos, each once, in strictly ascending order |
| TripDays.GroupImagesByDay | client/src/utils/tripDays.ts:59-98 | one group per distinct key plus one unknown group when some photo is undated; group i is day i + 1 with key i, its label and exactly its photos in input order; the unknown group holds the undated photos in input order |
| TripDays.DaysNumbered | client/src/utils/tripDays.ts:80-81 | every group's day number is its position plus one, the unknown group included |
| TripDays.UnknownLast | client/src/utils/tripDays.ts:88-95 | some photo lacks a usable date iff the last group is the unknown group |
| TripDays.DayNonEmpty | client/src/utils/tripDays.ts:64-74 | every listed day has at least one photo |
| TripDays.DaysAscending | client/src/utils/tripDays.ts:77-85 | dated groups come in strictly ascending key order |
| TripDays.GetDayKeys | client/src/utils/tripDays.ts:103-110 | one entry per group, in group order, with that group's key, label and number |
| TripDays.EveryImageOnce | client/src/utils/tripDays.ts:59-98 | the groups' photos together are a permutation of the input: every photo lands in exactly one group |
| TripDaysGrid.GroupStartIndices | client/src/components/TripDaysGrid.tsx:20-28 | one index per group, the first 0 and each next one the previous plus its group's size, so each is the size of all earlier groups |
| TripDaysGrid.ClickShowsClicked | client/src/components/TripDaysGrid.tsx:30-33 | a click inside a group yields a global index below the total and addressing the clicked photo in the concatenated groups |
| TripDaysGrid.ReorderedByDay | client/src/components/TripDaysGrid.tsx:17 | two photos from different days given latest first come out earliest first, so global indices follow day order, not input order |
| TimelinePage.MonthYear | client/src/pages/TimelinePage.tsx:7-16 | a missing or empty date and time 0 are "Undated", an unparsable date is "Invalid Date", any other time is its month label |
| TimelinePage.GroupedImagesRuns | client/src/pages/TimelinePage.tsx:89-111 | the groups concatenate to the photos, none is empty, each starts where the earlier ones end, every photo carries its group's title and neighbouring titles differ |
| TimelinePage.GroupsRebuildImages | client/src/pages/TimelinePage.tsx:89-111 | the groups put back together are exactly the photos, and there are no more groups than photos |
| TimelinePage.RunsFewer | client/src/pages/TimelinePage.tsx:94-104 | non-empty groups are never more than the photos they hold |
| TimelinePage.ClickOpensClicked | client/src/pages/TimelinePage.tsx:132 | startIndex + idx is inside the list and addresses the clicked photo |
| GroupPage.TakenAt | client/src/pages/GroupPage.tsx:16-19 | a missing or empty date is no date; otherwise the parsed time, none when unparsable |
| GroupPage.OrderIsTotalPreorder | client/src/pages/GroupPage.tsx:21-47 | each of the four comparators is a total preorder, so the sort is well defined |
| GroupPage.SortImages | client/src/pages/GroupPage.tsx:21-47 | a permutation of the input; by name ascending or descending; in date modes dated before undated and dated by descending or ascending time |
| GroupPage.UndatedKeepOrder | client/src/pages/GroupPage.tsx:30-44 | in both date modes the undated photos keep their album order |
| GroupPage.SameNameKeepOrder | client/src/pages/GroupPage.tsx:24-27 | photos with the same name keep their album order in the name modes |
| GroupPage.UnparsableIsUndated | client/src/pages/GroupPage.tsx:16-19 | an unparsable date sorts after every dated photo, like a missing one |
| TagCloud.NextSeed | client/src/pages/TagCloudPage.tsx:20 | the next seed is below the modulus |
| TagCloud.SwapIndexInRange | client/src/pages/TagCloudPage.tsx:21-24 | a seed in [1, 2147483646] draws a partner in [0, i] |
| TagCloud.StepNonZero | client/src/pages/TagCloudPage.tsx:20 | a seed not divisible by the modulus never steps to 0 |
| TagCloud.SwapPermutes | client/src/pages/TagCloudPage.tsx:25 | a swap keeps the elements |
| TagCloud.SwapExchanges | client/src/pages/TagCloudPage.tsx:25 | a swap exchanges the two positions and leaves the others alone |
| TagCloud.Draws | client/src/pages/TagCloudPage.tsx:18-24 | one partner per position from i down to 1, each within [0, position] |
| TagCloud.SwapDownPermutes | client/src/pages/TagCloudPage.tsx:23-26 | the swap pass keeps the elements |
| TagCloud.ShuffledPermutes | client/src/pages/TagCloudPage.tsx:16-28 | the shuffle is a permutation of its input |
| TagCloud.SeedsInRange | client/src/pages/TagCloudPage.tsx:18-24 | every seed a draw uses lies in [1, 2147483646], so every partner lies in [0, i] |
| TagCloud.Step | client/src/pages/TagCloudPage.tsx:20-25 | one iteration keeps the length and a non-zero seed, and the remaining loop continues from the swapped list |
| TagCloud.Shuffle | client/src/pages/TagCloudPage.tsx:16-28 | the loop as written returns a permutation of the input, equal to the functional shuffle |
| TagCloud.ShuffleOnlyMovesPositions | client/src/pages/TagCloudPage.tsx:18-26 | shuffling relabelled elements is relabelling the shuffled list, so the positions depend only on the length |
| TagCloud.ShortListsUnchanged | client/src/pages/TagCloudPage.tsx:23 | lists of at most one element come back unchanged |
| TagCloud.TwoTagsSwap | client/src/pages/TagCloudPage.tsx:18-25 | two tags always come back swapped |
| Collection.SourcesMembers | server/src/routes/search.ts:26-60 | a route visits the portfolio when it is included, and exactly those top-level and grouped albums of the tree that it does not skip, each labelled `Portfolio`, with its name, or as `<group> / <album>` |
| Collection.PickMembers | server/src/routes/search.ts:28-57 | a labelled image is picked iff it passes the route's test and one visited album holds it under that label |
| Collection.PickOrder | server/src/routes/search.ts:26-60 | the picked images come portfolio first, then the top-level albums' images, then the grouped albums' images |
| TagsRoute.Tags | server/src/routes/tags.ts:55-57 | the tags come in non-increasing count order |
| TagsRoute.TagCounts | server/src/routes/tags.ts:10-57 | each tag's count is the number of uses of that keyword summed over the counted images (a keyword repeated in one image counts twice) and is positive; every used keyword has an entry and none has two; the portfolio and the albums marked `ignorestats` are not counted |
| SearchRoute.Search | server/src/routes/search.ts:16-57 | a blank query (after lower-casing and trimming) finds nothing, and every result has a keyword whose lower-cased text contains the query |
| SearchRoute.SearchMembers | server/src/routes/search.ts:16-60 | a labelled image is a result iff the query is not blank, the image matches it, and a visited album (the portfolio unless ignored, or any album not marked `ignorestats`) holds it under that label |
| MapRoute.MapImages | server/src/routes/map.ts:18-48 | only geotagged images are shown |
| MapRoute.EveryGeotaggedImageShown | server/src/routes/map.ts:18-48 | every geotagged image of the portfolio, of any top-level album and of any group's album is shown with its album's label, since this route skips no album |
| MapRoute.PortfolioFirst | server/src/routes/map.ts:18-24 | the portfolio's geotagged images, labelled `Portfolio`, come first |
| VideoThumbnail.VideoIsNotImage | server/src/services/videoThumbnail.ts:82-85 | the video extensions and the image extensions do not overlap, so no name is both a video and an image |
| VideoThumbnail.FindVideoStream | server/src/services/videoThumbnail.ts:28 | no stream is found iff none has codec type `video`; otherwise the first such stream is returned |
| VideoThumbnail.GetVideoMetadata | server/src/services/videoThumbnail.ts:15-39 | a failed probe gives all zeros; width and height are the first video stream's, 0 when missing or when there is no video stream; the duration is the parsed `format.duration`, NaN included, and 0 when missing or empty |
| VideoThumbnail.FrameOffset | server/src/services/videoThumbnail.ts:60 | a NaN duration keeps the configured offset; otherwise the offset is the configured one iff the video is at least that long (or the configured offset is 0), else the start; a non-negative offset never lies past the end of the video |
| VideoThumbnail.UnknownDurationSeeksToStart | server/src/services/videoThumbnail.ts:35-60 | when the probe fails or reports no duration, the frame is taken at the start, for any positive configured offset |
| VideoThumbnail.UnparsableDurationKeepsOffset | server/src/services/videoThumbnail.ts:32-60 | a duration text that parses to NaN (ffprobe's `N/A`) keeps the configured offset, since NaN is not less than it |
| VideoThumbnail.VideoThumbnailPath | server/src/services/videoThumbnail.ts:42-44 | the poster of a video lies where an image's thumbnail would (server/src/services/thumbnail.ts:6-9) |
| VideoThumbnail.EnsureVideoThumbnail | server/src/services/videoThumbnail.ts:41-80 | any path returned is the image-thumbnail path; the fast path is taken iff the poster exists and is not older than the video; a written poster is the frame captured at the chosen offset |
| SocialExport.PresetIdsDistinct | server/src/services/socialExport.ts:18-30 | the seven preset ids are pairwise distinct |
| SocialExport.FindPreset | server/src/services/socialExport.ts:33 | a preset found is in the list and has the id asked for; none is found iff no preset has that id |
| SocialExport.GetPresetById | server/src/services/socialExport.ts:32-34 | the lookup returns a configured preset with the id asked for, or nothing iff no preset has it |
| SocialExport.PresetLookupRoundTrip | server/src/services/socialExport.ts:18-34 | every preset is found again by its own id |
| SocialExport.ExportPath | server/src/services/socialExport.ts:36-40 | for a non-empty exports directory and a plain preset id, the export lies under the exports directory in the source's directory, named `<stem>-<id>.png` or `.jpg` |
| SocialExport.ExportNameDeterminesId | server/src/services/socialExport.ts:39 | export names of one stem with extensions of equal length determine the preset id |
| SocialExport.DifferentIdsDifferentExports | server/src/services/socialExport.ts:36-40 | presets with different plain ids write different export files for one image |
| SocialExport.ExportPathsDistinct | server/src/services/socialExport.ts:18-40 | no two configured presets write the same export file for one image |
| SocialExport.CropPlan | server/src/services/socialExport.ts:56-77 | a source wider than the target keeps its full height and a rounded width, otherwise its full width and a rounded height; the rounded side is within half a pixel of the exact one; the region lies inside the image, is centred to within a pixel, and is resized to the preset's size |
| SocialExport.PlanExport | server/src/services/socialExport.ts:44-88 | no plan iff the width or height is missing or zero; crop mode iff the preset crops and has a height; otherwise a fit inside a square of the preset's width |
| SocialExport.GenerateExport | server/src/services/socialExport.ts:44-117 | an export fails iff the dimensions cannot be read; otherwise it is the planned pipeline encoded in the preset's format and quality |
| SocialExport.EnsureSocialExport | server/src/services/socialExport.ts:119-144 | any path returned is the export path; the fast path is taken iff the export exists and is not older than the source; a written export holds the generated image |
| SocialExport.UnknownDimensionsFail | server/src/services/socialExport.ts:48-50 | a missing or stale export of a source whose dimensions cannot be read is not produced |
| SocialExport.ExportThenCached | server/src/services/socialExport.ts:127-143 | an export written no earlier than its source is served from cache on the next request |
| SocialExport.CropFitsSource | server/src/services/socialExport.ts:54-77 | for every cropping preset and any positive source size, the crop is planned, lies inside the image and is resized to the preset's size |
| Markdown.RenderImage | server/src/services/markdown.ts:44-64 | a relative URL is served through the album's thumbnail route, any other is left as is; the lightbox attribute is present iff the URL is relative and then names the original href; the alt text is the token's text or empty; the image is a captioned figure iff the title is non-empty, captioned with that title |
| Markdown.ImageMarkup | server/src/services/markdown.ts:41-67 | the custom renderer is used iff an album path is given and non-empty; otherwise the library's default image markup is produced |
| Markdown.FigureIffTitled | server/src/services/markdown.ts:56-63 | the markup opens with `<figure>` exactly when the image has a non-empty title |
| Markdown.LightboxAttributeIffLocal | server/src/services/markdown.ts:47-56 | the anchor carries `data-lightbox-image` right after `href="#"` exactly when the URL is relative |
| Markdown.LightboxMatchesSource | server/src/services/markdown.ts:45-55 | for a local image, the thumbnail source and the lightbox attribute name the same file |
| Markdown.RewriteOnce | server/src/services/markdown.ts:44-52 | a rewritten source is root-relative, so rendering it again leaves it unchanged |
| Markdown.SchemeChecksAreLiteral | server/src/services/markdown.ts:6-11 | a protocol-relative `//host/…` URL is not local, while an upper-case `HTTPS://` URL counts as local |
| Frequency.Get | server/src/routes/stats.ts:17 | the count of a key is that of its entry, or 0 for a key not in the map |
| Frequency.Bump | server/src/routes/stats.ts:17 | the bumped key's count rises by exactly 1 and every other key's count is unchanged |
| Frequency.BumpKeys | server/src/routes/stats.ts:17 | bumping a present key keeps the key order; bumping a new key appends it at the end |
| Frequency.TallyCounts | server/src/routes/stats.ts:15-18 | after bumping a list of keys from empty, each key's count is its number of occurrences, each distinct key has exactly one entry, and no other key has one |
| Frequency.ToSorted | server/src/routes/stats.ts:20-24 | the sorted entries are a permutation of the map's entries in non-increasing count order |
| Frequency.ToSortedStable | server/src/routes/stats.ts:20-24 | entries with equal counts keep their insertion order, as the stable `Array.prototype.sort` keeps them |
| Frequency.PermutedTally | server/src/routes/stats.ts:15-24 | any reordering of a tally still holds one entry per distinct key with its number of occurrences |
| Frequency.SortedTally | server/src/routes/stats.ts:15-24 | the sorted tally lists every distinct key once with its number of occurrences, and nothing else |
| Metadata.Gcd | server/src/services/scanner.ts:58-60 | the greatest common divisor is zero only when both arguments are |
| Metadata.GcdDivides | server/src/services/scanner.ts:58-60 | unless both arguments are zero, the result divides each of them |
| Metadata.GcdGreatest | server/src/services/scanner.ts:58-60 | every common divisor of the arguments divides the result |
| Metadata.Reduce | server/src/services/scanner.ts:62-65 | the reduced terms are positive and, multiplied by the divisor, give back the width and the height |
| Metadata.ReduceCoprime | server/src/services/scanner.ts:62-65 | the reduced width and height have no common divisor other than 1 |
| Metadata.FormatAspectRatio | server/src/services/scanner.ts:62-82 | a reduced 3:2/2:3, 4:3/3:4, 16:9/9:16 or 1:1 gets its label; a reduced ratio with both terms at most 20 and no label is written out as `w:h`; a ratio with a reduced term above 20 and no exact label takes the first approximate label of `width / height` within 0.05, or is written out when none is that close; any result is a known label or the reduced `w:h` |
| Metadata.AspectRatioExamples | server/src/services/scanner.ts:62-70 | 1920×1080 is "16:9", 3000×2000 is "3:2" and 100×100 is "1:1" |
| Metadata.PortraitLabels | server/src/services/scanner.ts:67-77 | an exact 2:3 portrait is labelled "3:2", while 2001×3000, whose reduced terms exceed 20, is approximated as "2:3" |
| Metadata.IptcKeywordsOf | server/src/services/scanner.ts:99-115 | IPTC keywords are used only when non-empty: a list as is, a single string as a one-item list |
| Metadata.HierarchicalKeywords | server/src/services/scanner.ts:139-151 | every item's trimmed last `\|` level appears, exactly once, and nothing else does; the list is empty iff there were no items |
| Metadata.SelectKeywords | server/src/services/scanner.ts:99-153 | IPTC keywords win; failing them the trimmed `dc:subject` items; failing those the hierarchical keywords; no keywords iff every source is absent or empty |
| Metadata.SameLeafKeptOnce | server/src/services/scanner.ts:146-150 | two hierarchical keywords with the same leaf give that leaf once |
| Metadata.HierarchicalExample | server/src/services/scanner.ts:146-150 | `Travel\|Europe\|Paris` and ` Paris ` together give just `Paris` |
| Metadata.Hour12 | server/src/services/scanner.ts:232 | the 12-hour clock value is between 1 and 12 and agrees with the 24-hour value modulo 12 |
| Metadata.Pad2 | server/src/services/scanner.ts:233 | a minute below 100 is written as exactly two digits that read back as the same number |
| Metadata.CameraName | server/src/services/scanner.ts:176-181 | the model alone when it starts with the make (or the make is empty); otherwise make and model separated by one space, or the make alone when the model is empty |
| Metadata.ExifFields | server/src/services/scanner.ts:96-306 | keywords come from the keyword sources; dimensions and aspect ratio are set iff both sizes are non-zero; the colour space is the upper-cased space when present; a camera is set iff the make or model is present; the date is the formatted `DateTimeOriginal`; without EXIF no camera, lens, ISO, date or GPS |
| Metadata.TagFields | server/src/services/scanner.ts:176-260 | a camera is set iff the make or model is truthy; white balance is "Auto" or "Manual"; the date is the formatted `DateTimeOriginal`; the `iso` key is set iff `ISOSpeedRatings` is truthy (a non-zero number, or any list), to the number or the list's first item, `undefined` for an empty list |
| Metadata.IsoListKeepsExif | server/src/services/scanner.ts:211-214 | an `ISOSpeedRatings` list, even `[]` or `[0]`, sets the `iso` key, so `exif` is kept, with the first item or `undefined` as its ISO |
| Metadata.BuildExif | server/src/services/scanner.ts:308-310 | `exif` is absent iff no keyword, dimension, colour space or EXIF field was set, and otherwise holds the non-empty fields |
| Metadata.GetImageMetadata | server/src/services/scanner.ts:84-315 | the stored value is returned unchanged iff the stored mtime equals the current one; on a miss the value is a fresh read; afterwards the entry for the path holds the current mtime and what was returned, and no other entry changes |
| Metadata.SecondReadHits | server/src/services/scanner.ts:85-89 | asking again for an unchanged file hits the cache and returns the same value, whatever the file would now decode to |
| Metadata.ChangedFileIsReread | server/src/services/scanner.ts:85-91 | once the file's mtime differs from the stored one, the value is read afresh |
| Metadata.NeedsParsingIsMiss | server/src/services/scanner.ts:566-575 | for a file that can be stat'ed, the pre-warm filter selects it iff the cache lookup would miss |
| Metadata.Pending | server/src/services/scanner.ts:567-575 | the pending list keeps exactly the files the pre-warm filter selects, no more files than given |
| Metadata.ParsedFileNoLongerPending | server/src/services/scanner.ts:567-589 | once a pending file has been read, it is no longer pending while its mtime stays the same |
| OgTags.StripLeadingSlash | server/src/index.ts:62 | one leading `/` is removed when there is one; otherwise the path is unchanged |
| OgTags.ImagePath | server/src/index.ts:56-63 | on the page `/` or the empty path the image is in `portfolio/`; otherwise it is under the page path without its leading slash; either way the path ends in `/` and the image name |
| OgTags.StripLastExtension | server/src/index.ts:65 | the result is a prefix of the name; when something is cut it is a `.` followed by at least one non-dot character running to the end; nothing is cut from a name without a dot or ending in a dot |
| OgTags.ImageTitle | server/src/index.ts:65 | the title is the image name with its last extension removed (as long as the stripped name, the whole name when there is none), with every `-` and `_` turned into a space and every other character kept |
| OgTags.OgCover | server/src/index.ts:84-94 | a non-blank `cover.txt` is used trimmed and as it stands; otherwise the cover is the least image name in code-point order, present iff the directory has an image-named entry |
| OgTags.BuildOgTags | server/src/index.ts:50-119 | with a non-empty `image` parameter the tags name that image's thumbnail and title; without one, tags appear only for `/albums/<slug>` naming an existing directory that has a cover, with the cover's thumbnail, the photo count and the formatted last slug segment; any other request gets no tags |
| OgTags.CoverTextNotChecked | server/src/index.ts:84-94 | a `cover.txt` naming a file that is not in the album is still used as the cover |
| OgTags.PhotoCount | server/src/index.ts:99 | the description starts with the count and " photo", and ends in "s" exactly when the count is not one |
| OgTags.PhotoCountReadsBack | server/src/index.ts:99 | the digits in front of the description read back as the count |
| OgTags.PhotoCountExamples | server/src/index.ts:99 | one photo is "1 photo", and zero is plural ("0 photos") |
| Share.ParentPath | client/src/components/ShareButton.tsx:14-15 | without a `/` the parent is empty; otherwise the path is the parent, a `/`, and the part after the last `/` |
| Share.BuildShareUrl | client/src/components/ShareButton.tsx:9-20 | an album link is the target path under the origin; an image link carries the file name as `image` on its parent's page, with the portfolio parent mapped to the bare origin |
| Share.ShareRoundTrip | client/src/components/ShareButton.tsx:9-20 | for an image below a named folder, the server derives from the shared link exactly the image path that was shared (the inverse is `OgTags.ImagePath`, server/src/index.ts:56-63) |
| Share.RootImageLandsInPortfolio | client/src/components/ShareButton.tsx:14-18 | an image path with an empty parent (`/a.jpg`) comes back as `portfolio/a.jpg`, so the round trip needs a named parent |
| Scanner.SynologySpellingMissed | server/src/services/scanner.ts:46-48 | the hidden-name test as written lets Synology's own `@eaDir` folder through, while the corrected test hides it |
| Scanner.HiddenNameExtends | server/src/services/scanner.ts:46-48 | the corrected hidden-name test hides every name the written one hides, and the only extra names it hides are letter-case variants of `@eadir` |
| Scanner.UpperCaseExtensionIsImage | server/src/services/scanner.ts:50-52 | the extension is lower-cased before the lookup, so `photo.JPG` is an image |
| Scanner.DotFileIsNotImage | server/src/services/scanner.ts:50-52 | a bare `.jpg` has no extension in the `path.extname` sense and is not an image |
| Scanner.ListImageFiles | server/src/services/scanner.ts:317-322 | a missing directory lists nothing; otherwise the result holds exactly the directory's non-hidden image names, each as often as the directory holds it, in ascending order |
| Scanner.HiddenImageOnlyDirectory | server/src/services/scanner.ts:357-360 | a directory whose only image is hidden counts as having direct images yet lists none, because `hasDirectImages` skips the hidden-name test |
| Scanner.AlbumSortNotTransitive | server/src/services/scanner.ts:371-380 | the album comparator as written is not a total preorder: three concrete names form a cycle |
| Scanner.AlbumOrderIsTotalPreorder | server/src/services/scanner.ts:370-380 | the corrected album order (dated names first, newest first, then the rest ascending) is total and transitive |
| Scanner.AlbumOrderAgrees | server/src/services/scanner.ts:371-380 | the corrected order decides like the written comparator on two dated names, on two undated names, and on a dated name against one starting with a letter |
| Scanner.GetCoverImage | server/src/services/scanner.ts:382-391 | a cover exists iff there are images and is always one of them; it is the trimmed `cover.txt` name when that is non-empty and listed, otherwise the first image |
| Scanner.ImageMTimes | server/src/services/scanner.ts:393-402 | every image that exists in the directory contributes its modification time, every time listed is such an image's, and missing images are skipped |
| Scanner.MaxMTime | server/src/services/scanner.ts:393-402 | the result is non-negative, at least every time given, and either 0 or one of the times |
| Scanner.UpdatedAt | server/src/services/scanner.ts:393-402 | `updatedAt` is present iff some image's modification time is positive, and is then the largest of those times: one of them and at least every other |
| Scanner.BuildAlbumInfo | server/src/services/scanner.ts:404-434 | name, slug and path come from the directory; `hasPassword` iff `password.txt` exists; a locked album shows no cover or cover size; a cover URL exists iff unlocked with images and is the thumbnail of the image `getCoverImage` picks, with that image's dimensions as the cover size; the count is the number of listed images; `updatedAt` is the largest image modification time, absent when none is positive |
| Scanner.SortedSubdirs | server/src/services/scanner.ts:441-444 | exactly the subdirectories not hidden by the corrected hidden test, each as often as listed, in the corrected album order |
| Scanner.GroupAlbumEntriesShape | server/src/services/scanner.ts:458-470 | every sub-album of a group is a subdirectory with direct images that the corrected hidden test keeps, and the sub-albums are in the corrected album order |
| Scanner.GroupEntryNeedsAnAlbum | server/src/services/scanner.ts:456-478 | an entry becomes a group iff it has no direct images and at least one sub-album; the `hasSubdirectories` test adds nothing |
| Scanner.GroupEntryTest | server/src/services/scanner.ts:453-478 | the group condition is the three tests `scanAlbums` makes in turn: no direct images, some visible subdirectory, a non-empty list of sub-albums |
| Scanner.ScanAlbums | server/src/services/scanner.ts:436-483 | without an albums directory the tree is empty; otherwise the entries are visited with the corrected hidden test and order, the top-level albums are the visited entries with direct images, and the groups are the other entries with sub-albums, both in visiting order; no group is empty, and no entry yields both |
| Scanner.ClassifyEntries | server/src/services/scanner.ts:449-480 | for mutually exclusive album and group tests, the loop's two lists are the albums and the groups of the entries, in order |
| Scanner.ScanAlbumsOrder | server/src/services/scanner.ts:441-455 | the top-level albums' slugs come out in the corrected album order |
| Scanner.AlbumsAndGroupsDisjoint | server/src/services/scanner.ts:453-456 | no entry is both a top-level album and a group |
| Stats.ParseYear | server/src/routes/stats.ts:26-30 | a missing or empty date has no year; a year found is four digits taken from the date text |
| Stats.ParseYearOfFormatted | server/src/routes/stats.ts:26-30 | the year read back from a date the scanner's date formatter wrote is that date's year, for years written with four digits |
| Stats.ParseHourAsWritten | server/src/routes/stats.ts:32-42 | as written, any one or two captured digits are accepted, so the hour can reach 111 |
| Stats.HourOutOfRange | server/src/routes/stats.ts:32-42 | the date text "at 13:30 PM" is read as hour 25 as written, outside the 24 hourly buckets; the corrected reading rejects it |
| Stats.ParseHour | server/src/routes/stats.ts:32-42 | a parsed hour is always within 0..23, and whenever it exists it agrees with the source's reading |
| Stats.ParseHourOfFormatted | server/src/routes/stats.ts:32-42 | the 12-hour clock text the scanner writes reads back as the original hour of the day, both as written and corrected (12 AM is 0, 12 PM is 12) |
| Stats.FoldSummarises | server/src/routes/stats.ts:59-86 | after the loop every counter holds what it should: the photo count, the geotagged and keyworded counts, a frequency table per field, and one bucket per hour, read with the corrected hour parse, counting the photos taken in it |
| Stats.ProcessImages | server/src/routes/stats.ts:59-86 | the counters summarise every image seen, and the hourly buckets add up to the number of photos whose hour the corrected parse reads, never more than the photo count |
| Stats.ByYear | server/src/routes/stats.ts:134-137 | the year table keeps one entry per counted year and comes out in ascending year order |
| Stats.ByYearChronological | server/src/routes/stats.ts:134-137 | each year tallied from the photos appears exactly once in the year table with the number of photos taken in it, and the years increase numerically |
| Stats.RankedTally | server/src/routes/stats.ts:15-24 | the sorted frequency table lists each distinct value once with its number of occurrences, most frequent first |
| Stats.AlbumsCounted | server/src/routes/stats.ts:102-119 | the album total equals the number of albums the route reads: the top-level albums plus every group's albums |
| Stats.GetStats | server/src/routes/stats.ts:59-153 | the response counts every photo of the portfolio and all albums, counts the groups and albums, ranks each camera, lens, focal length, aperture and ISO table, fills 24 hour buckets that count the photos of each hour by the corrected hour parse, and lists the years chronologically with their counts |
| Text.FormatNameShape | server/src/routes/albums.ts:125-127 | the display name has the folder name's length, no '-' or '_' is left (each became a space), every word start is not lower case, and every other character is unchanged |
| Text.FormatNameIdempotent | server/src/routes/albums.ts:125-127 | formatting an already formatted name changes nothing |
| Text.TrimIdempotent | server/src/services/scanner.ts:385 | trimming cover.txt text twice gives what trimming once gives |
| FileSystem.WriteFile | server/src/services/thumbnail.ts:22-28 | a write that succeeds leaves the written file at its path, directories created as needed |
| FileSystem.WriteFileElsewhere | server/src/services/thumbnail.ts:22-28 | writing a derived file under its own top-level directory leaves every path under another top-level directory unchanged |
| Thumbnail.ThumbnailPath | server/src/services/thumbnail.ts:6-9 | the thumbnail lies in the thumbnails directory under the source's directory, and its file name is the source's stem with `.jpg` |
| Thumbnail.ThumbnailPathsCoincide | server/src/services/thumbnail.ts:6-9 | two sources share a thumbnail path iff they share their directory and their stem |
| Thumbnail.ExtensionsShareThumbnail | server/src/services/thumbnail.ts:6-9 | `d/n.png` and `d/n.jpg` map to the same thumbnail |
| Thumbnail.EnsureOutput | server/src/services/thumbnail.ts:11-31 | the existing output is returned untouched iff the source exists and the output exists with an mtime at least the source's; otherwise the output is produced and written, and the call fails only when the source is missing, the producer fails or the write is blocked; the returned path is always the output path |
| Thumbnail.WrittenThenCached | server/src/services/thumbnail.ts:14-20 | an output written no earlier than its source's mtime is served from cache on the next request, when output and source lie in different top-level directories |
| Thumbnail.WrittenElsewhereUnchanged | server/src/services/thumbnail.ts:22-28 | producing an output changes no file outside the output's top-level directory |
| Thumbnail.EnsureThumbnail | server/src/services/thumbnail.ts:11-31 | any path returned is the mapped thumbnail path; the fast path is taken iff the thumbnail exists and is not older than the source; a written thumbnail holds the rendering of the source |
| Thumbnail.ThumbnailThenCached | server/src/services/thumbnail.ts:11-31 | a thumbnail written for a source outside the thumbnails directory is served from cache afterwards |
| Thumbnail.ThumbnailWritesStayInside | server/src/services/thumbnail.ts:22-28 | writing a thumbnail changes nothing outside the thumbnails directory |
| ThumbnailQueue.WalkAlbumsSound | server/src/services/thumbnailQueue.ts:25-44 | every image the albums walk collects is a file found at its recorded path with its recorded mtime, and its name has an image extension |
| ThumbnailQueue.WalkAlbumsComplete | server/src/services/thumbnailQueue.ts:30-41 | at every level, an image-named file not starting with `.` is collected, and so is everything collected below such a directory |
| ThumbnailQueue.CollectedImagesResolve | server/src/services/thumbnailQueue.ts:12-48 | every collected image, from the portfolio as `portfolio/<f>` or from the albums as `albums/…/<f>`, resolves in the tree |
| ThumbnailQueue.SynologyImagesCollected | server/src/services/thumbnailQueue.ts:31 | the walk skips only dot-names, so an image inside `@eaDir` is collected as `albums/@eaDir/<f>` |
| ThumbnailQueue.NeedsThumbnailIffNotCached | server/src/services/thumbnailQueue.ts:50-59 | for a collected image, the queue's test is the exact complement of the thumbnail service's fast path, over the same path mapping (server/src/services/thumbnail.ts:6-20) |
| ThumbnailQueue.PendingMembers | server/src/services/thumbnailQueue.ts:63 | an image is pending iff it was collected and needs a thumbnail |
| ThumbnailQueue.PreGenerate | server/src/services/thumbnailQueue.ts:61-102 | every pending image ends up counted as completed or failed; with nothing pending the tree is unchanged; nothing outside the thumbnails directory changes |
| TimelineRoute.TimeKey | server/src/routes/timeline.ts:13-17 | a missing or empty date text keys as 0 and any other text as its parsed time; the sort then treats zero and unparsable (NaN) keys alike as undated, so an image is dated only when its text parses to a non-zero time |
| TimelineRoute.ByDateIsTotalPreorder | server/src/routes/timeline.ts:67-75 | the timeline comparator is a total preorder, so the stable sort is well defined |
| TimelineRoute.Timeline | server/src/routes/timeline.ts:66-75 | the sorted timeline is a permutation of the collected images; no undated image precedes a dated one, and dated images come in non-increasing time |
| TimelineRoute.UndatedKeepOrder | server/src/routes/timeline.ts:71 | a list of only undated images comes out in collection order |
| TimelineRoute.OrDefault | server/src/routes/timeline.ts:83-84 | a missing, unparsable or zero parameter falls back to the default, so the result is never 0 when the default is not |
| TimelineRoute.SliceIndex | server/src/routes/timeline.ts:89 | a slice index is clamped into the list, and an index already inside it is kept |
| TimelineRoute.GetPage | server/src/routes/timeline.ts:82-95 | the total is the full length; `hasMore` iff offset plus limit is below it; for a positive page and limit the page is the images from the offset up to offset plus limit, clamped to the list |
| TimelineRoute.DefaultFirstPage | server/src/routes/timeline.ts:83-95 | without parameters the first fifty images are served, with more iff there are over fifty |
| TimelineRoute.HasMoreIffNextPage | server/src/routes/timeline.ts:85-94 | `hasMore` holds exactly when the next page is not empty |
| TimelineRoute.PagesTile | server/src/routes/timeline.ts:85-89 | reading pages 1 to n with one limit reads the first n·limit images in order, without gaps or repeats |
| TimelineRoute.GetFullTimeline | server/src/routes/timeline.ts:19-79 | the cached list is returned unchanged while it exists and is younger than five minutes; otherwise the new list is returned and cached with the new time; either way the cache afterwards holds what was returned |
| TimelineRoute.RecomputedThenReused | server/src/routes/timeline.ts:19-22 | a list computed at some time is served, whatever a new scan would give, to every request within five minutes of that time |
| TimelineRoute.ExpiredRecomputes | server/src/routes/timeline.ts:20 | once five minutes have passed since the cache time, the next request scans again |
| TimelineRoute.FirstRequestScans | server/src/routes/timeline.ts:9-22 | the first request always scans |

## Left out

- Filesystem errors and the `try`/`catch` recovery paths are not modelled.
  Where the source would throw, the model reads a non-directory as an empty listing and a `password.txt` that is a directory as absent.
- `path.resolve` is not modelled. The albums route's outside-the-albums-directory test (albums.ts:28-33) is the parameter `insideAlbums`.
- Percent-encoding of URLs is not modelled. The share URL carries the file name before `encodeURIComponent`, and the server is taken to read it back decoded.
- sharp, ffmpeg, ffprobe, exifr, exif-reader, iptc-reader and marked are parameters: their outputs are inputs to the model.
- Floating point is not modelled in these places:
  - the PNG re-encode loop that shrinks a social export under the size cap (socialExport.ts:96-110);
  - the megapixel, exposure and shutter-speed texts;
  - the GPS degree conversion;
  - the `toFixed` renderings.
- TagCloud.SwapIndex: uses the exact rational floor of `(seed - 1) / 2147483646 * (i + 1)`. IEEE double rounding of that product is not modelled.
- TagCloud.Shuffle: requires the list length not to be a non-zero multiple of 2147483647. Such a length seeds the generator with a multiple of the modulus, so every draw is 0 and the first partner is -1.
- `parseInt` is not modelled digit by digit. A query parameter arrives already parsed, as an optional integer, with None standing for NaN.
- Four routes call the async `scanAlbums()` without `await`: stats.ts:101, tags.ts:25, map.ts:26 and albums.ts:14. The result is a Promise, so `albumTree.albums` and `albumTree.groups` are undefined. As written, stats, tags and map throw a TypeError and answer 500 (stats.ts:154-156, tags.ts:60, map.ts:51), and the album-tree route answers `{}`, the JSON of a Promise. The model computes the aggregation these routes evidently intend.
- Concurrency is modelled sequentially. This covers timers, the five-worker thumbnail pool and request interleaving. Logging is left out.
- Analytics `loadFromDisk` (analytics.ts:19-44) is not modelled, because it is file I/O. The disk write in `flush` is the parameter `writeOk`.
- Directory mtimes are not updated when a derived file is written.
- Case mapping is ASCII-only.
- `localeCompare` and the default sort are both modelled as code-point order, without locale collation. The default sort compares UTF-16 code units, and the two orders differ when a character above U+FFFF meets one in U+E000–U+FFFF: "😀" sorts before "～" by code units, after it by code points.
- `diskUsageBytes` in the stats route is not modelled: it is a sum of `stat` sizes, i.e. file I/O.
- `SOCIAL_EXPORTS_DIR` and the video thumbnail offset are not exported by config.ts. They are parameters here.
- marked's default image renderer is a parameter.
- SocialExport.PlanExport: requires a preset with positive dimensions. Every built-in preset meets this (SocialExport.PresetsProper).
- Scanner.SortedSubdirs: uses the corrected hidden test and the corrected album order, as the Findings table says the rest of the model does. As written, an `albums/@eaDir/` folder holding `x.jpg` is a top-level album, and `2023-Japan` sorts before `20240101-Paris`, because `albumSort` compares forward unless both names have an 8-digit prefix. The model drops the first folder and lists `20240101-Paris` first. `albumSort` is not transitive (Scanner.AlbumSortNotTransitive), so the source's sort result depends on the engine's algorithm.
- Scanner.ScanAlbums: builds the tree through Scanner.SortedSubdirs, with the same substitution of the corrected hidden test and order.
- Scanner.ScanAlbumsOrder: proves the corrected album order, not an order `albumSort` would give.
- Scanner.GroupAlbumEntriesShape: the group's sub-albums come from Scanner.SortedSubdirs, with the same substitution.
- Stats.GetStats: the hour buckets use the corrected Stats.ParseHour. As written, `byHour[parseHour(...)]++` indexes with the as-written hour, so the date text "Jan 1, 2024 at 13:30 PM" writes `byHour[25]`: the array grows to 26 entries, the new one NaN. The scanner writes only hours 1 to 12, and for its dates both parses agree (Stats.ParseHourOfFormatted), so the two differ only for dates written elsewhere.
- Stats.FoldSummarises: the hour buckets use the corrected Stats.ParseHour, as for Stats.GetStats.
- Stats.ProcessImages: the hour buckets use the corrected Stats.ParseHour, as for Stats.GetStats.
- Metadata.FormatAspectRatio: computes `width / height` and the distances to 1.5, 1.33 and so on in exact reals, not IEEE doubles. The two differ near a 0.05 boundary. At 1380×1000 (reduced 69:50) the double distance to 1.33 is 0.04999999999999982, so the source gives "4:3", while the model gives "69:50". At 720×1000 (reduced 18:25) the source gives "2:3" and the model "3:4".
- FileSystem.Lookup: splits a path on `/` and walks the segments literally, without the `.` and `..` resolution that `path.join` performs. So Password.GetAlbumPassword with the album path `x/../trip` finds no `password.txt`, where the source reads `albums/trip/password.txt`.
- Password.GetAlbumPassword: finds the album directory through FileSystem.Lookup, so an album path with `.` or `..` segments is not resolved as `path.join` resolves it.
- Stats.ParseYearOfFormatted: covers dates whose year is written with four digits (1000 to 9999) only.
- React rendering, routing and gestures are not modelled. The "Invalid Date" label is the only rendering detail kept.
- `scanPortfolio`, `scanAlbumImages`, `getImageCaption`, `getAlbumReadme`, `loadDiskCache` and `saveDiskCache` are not part of this model: they assemble records from file reads. Their results are inputs of the aggregations.
- The stats route reads every album: stats.ts has no `.ignorestats` check, and the model follows the code.

## Findings

| source | as written | input that shows it | evidently intended | confidence | as-written member | corrected member |
|---|---|---|---|---|---|---|
| server/src/services/scanner.ts:371-380 | `albumSort` orders two 8-digit-prefixed names in reverse and every other pair forward, which is not transitive | "20240101" ≤ "202402" ≤ "20240301" ≤ "20240101", but not "20240101" ≤ "20240301" | dated albums newest first, then the undated albums in ascending order: a total preorder | not executed | Scanner.AlbumSortNotTransitive | Scanner.AlbumOrderIsTotalPreorder |
| server/src/services/scanner.ts:46-48 | `isHiddenDir` hides only the spellings `@eadir` and `@EaDir` | Synology's metadata folder `@eaDir` is not hidden, so the scanner treats it as an ordinary folder that can become an album or group | Synology's folder is hidden whatever its case | not executed | Scanner.SynologySpellingMissed | Scanner.HiddenNameExtends |
| server/src/routes/stats.ts:32-42 | `parseHour` accepts any one or two digits before `:mm AM/PM` | "Jan 1, 2024 at 13:30 PM" gives hour 25, an index past the 24 buckets | hours 1 to 12 only, giving an index in 0..23 | not executed | Stats.HourOutOfRange | Stats.ParseHour |
