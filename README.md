# nano-music: the library scan and the paged listing, in Dafny

nano-music is a small personal music library. Its one piece of real logic is
the scan endpoint. The scan walks the `public/music` tree. It keeps the audio
files whose lower-cased extension is `.mp3`, `.flac`, `.m4a`, `.wav` or `.ogg`,
and skips every file whose path relative to `public` is already in the song
table. For each remaining file it reads the tags, saves the first embedded
picture as a 300x300 JPEG in `public/covers` (reusing a cover file that already
exists), and inserts one song record. It reports how many records it
inserted. The listing endpoint returns one page of the table in title order,
with the total count and a `hasMore` flag.

This project models both endpoints and proves what they promise:

- `Common`: JavaScript truthiness for `||` fallbacks, ASCII character classes, `toLowerCase`.
- `Paths`: `path.extname`, `path.basename(p, ext)`, the allow-list, the stored `format`, `path.join`.
- `Records`: the tag data a parser returns, the song record, and `BuildSong` (the record `processMusicFile` inserts).
- `CoverArt`: the sanitiser and the cover file name (`<artist>-<album>-<hash8>.jpg`).
- `ScanSpec`: the scan as functions of a finite directory tree and of the store it starts from. The store is the catalog (a map from `filePath` to record) plus the set of cover files. The lemmas cover the filter, insert-only de-duplication, the reported count, the catalog invariant, failure, idempotence of a rescan, and cover sharing.
- `ScanRoute`: class `Library`, whose catalog, covers and result list the methods update in place. It has the `scanDir` loop and its recursion, `processMusicFile`, `saveCoverArt`, `scanMusicDirectory` and `POST`. Each method is proved equal to the `ScanSpec` function for it.
- `Listing`: `GET`, which is default parameters, `skip`, the slice, the total and `hasMore`, with lemmas about pages.

Collaborators are inputs:

- The directory tree is a finite `Entry` datatype. Each file carries its size and what the tag parser returns for it, or `None` when parsing throws.
- The MD5 hex digest is a function to 32-character lower-case hex strings.
- Whether the image library manages to encode and write a picture is a predicate.

The relative path of an entry is `dir + "/" + name`, starting from `music`.

## Model

| member | source | states |
|---|---|---|
| `Common.StringOr` | src/app/api/songs/scan/route.ts:95-96 | `tag \|\| fallback`: the tag when it is present and non-empty, otherwise the fallback; never empty when the fallback is not |
| `Common.StringOrNull` | src/app/api/songs/scan/route.ts:97-98 | `s \|\| null`: never stores the empty string; present exactly when the input is truthy, and then it is the input |
| `Common.NumberOrNull` | src/app/api/songs/scan/route.ts:99-105 | `n \|\| null`: never stores 0; present exactly when the input is truthy, and then it is the input |
| `Common.Lower` | src/app/api/songs/scan/route.ts:55 | `toLowerCase` on ASCII: the result has the input's length, and each character is the lower-cased character at the same position |
| `Paths.LastDot` | src/app/api/songs/scan/route.ts:55 | the index of the last '.' of a name, or -1; no dot follows it |
| `Paths.ExtName` | src/app/api/songs/scan/route.ts:55 | `path.extname`: empty, or a suffix of the name that starts with its only dot; empty exactly when the name has no dot, its last dot is its first character, or it is ".." |
| `Paths.AcceptedParts` | src/app/api/songs/scan/route.ts:43-57 | for a file that passes the allow-list: stem + extension is the name, the stem is non-empty, and the stored format is one of mp3/flac/m4a/wav/ogg, the lower-cased extension without its dot |
| `Paths.Accepted` | src/app/api/songs/scan/route.ts:43-57 | the allow-list test: the lower-cased extension is one of ".mp3", ".flac", ".m4a", ".wav", ".ogg"; what an accepted name guarantees is stated by `Paths.AcceptedParts` |
| `Paths.Stem` | src/app/api/songs/scan/route.ts:95 | `path.basename(p, path.extname(p))`: the stem followed by the extension is the name; the whole name when there is no extension; non-empty when there is one |
| `Paths.Format` | src/app/api/songs/scan/route.ts:104 | the stored format: empty without an extension, otherwise "." + format is the lower-cased extension |
| `Paths.Join` | src/app/api/songs/scan/route.ts:49-59 | the relative path of an entry: the directory path, one '/', then the entry name |
| `Paths.JoinInjective` | src/app/api/songs/scan/route.ts:49-62 | distinct entries of one directory get distinct relative paths, so the lookup by path tells them apart |
| `Records.BuildSong` | src/app/api/songs/scan/route.ts:93-108 | the inserted record. The title is the tag if truthy, else the file name minus its extension. The artist is the tag if truthy, else "Unknown Artist". Album, first genre, year, track number and bitrate are null exactly when the tag is falsy, and otherwise equal the tag. Duration, filePath, size and cover are the ones given; "." + format is the lower-cased extension. The record is well formed |
| `Records.FirstGenre` | src/app/api/songs/scan/route.ts:98 | `genre?.[0]`: present exactly when the genre list is present and non-empty, and then its first element |
| `CoverArt.Sanitize` | src/app/api/songs/scan/route.ts:123-124 | same length as the input, only `[a-z0-9-]`; each alphanumeric character is kept in place, lower-cased, and each other character becomes '-' |
| `CoverArt.SanitizeIdempotent` | src/app/api/songs/scan/route.ts:123-124 | sanitising a sanitised name changes nothing |
| `CoverArt.HashInputAsWritten` | src/app/api/songs/scan/route.ts:127 | the source's digest input: the artist, one '-', then the album |
| `CoverArt.FileName` | src/app/api/songs/scan/route.ts:128 | `${sanitizedArtist}-${sanitizedAlbum}-${hash}.jpg`, position by position; everything before ".jpg" is `[a-z0-9-]` when the hash is |
| `CoverArt.CoverFileNameAsWritten` | src/app/api/songs/scan/route.ts:121-128 | the source's cover file name: sanitised artist, '-', sanitised album, '-', the first 8 hex digits of the MD5 of `${artist}-${album}`, ".jpg", with "unknown" defaults |
| `CoverArt.AsWrittenPairsCollide` | src/app/api/songs/scan/route.ts:121-128 | with the hash input as written, ("a-b", "c") and ("a", "b-c") get the same cover file name for every digest function |
| `CoverArt.DecimalInjective` | src/app/api/songs/scan/route.ts:127 | distinct lengths print as distinct numerals, which is what makes the corrected hash input unambiguous |
| `CoverArt.HashInputInjective` | src/app/api/songs/scan/route.ts:127 | the corrected hash input determines the (artist, album) pair |
| `CoverArt.CoverFileName` | src/app/api/songs/scan/route.ts:121-128 | the cover file name the model uses, with the digest taken over the corrected input `${artist.length}-${artist}-${album}` instead of line 127's `${artist}-${album}`: everything before ".jpg" is `[a-z0-9-]` |
| `CoverArt.CoverFileNameShape` | src/app/api/songs/scan/route.ts:121-128 | that name is exactly the sanitised artist, '-', the sanitised album, '-', the first 8 hex digits of the MD5 of the corrected input, and ".jpg", with "unknown" for a missing artist or album |
| `CoverArt.CoverPath` | src/app/api/songs/scan/route.ts:130 | the returned path is "/covers/" followed by the file name |
| `CoverArt.CoverFileNamesCollideOnlyByDigest` | src/app/api/songs/scan/route.ts:121-128 | two different (artist, album) pairs share a cover file only if the first 8 hex digits of the digests of two different inputs agree |
| `ScanSpec.SaveCover` | src/app/api/songs/scan/route.ts:118-155 | `saveCoverArt` on the set of cover files: an existing file is reused and nothing is written; otherwise the file is added when the image library succeeds, and None is returned with nothing written when it fails; only that one name can be added. The name uses the corrected digest input |
| `ScanSpec.ProcessFile` | src/app/api/songs/scan/route.ts:82-116 | `processMusicFile`: a parse failure gives None and no change. Covers only grow, and do not change for a file without pictures, whose record then has no cover. A record is returned exactly when the tags parsed and the path is absent. It is inserted under its own path, and otherwise the catalog is unchanged |
| `ScanSpec.VisitFile` | src/app/api/songs/scan/route.ts:54-73 | one regular file: never fails; an unsupported extension or a known path changes nothing; a record is reported, at most one, exactly when the file is accepted, new and parsed |
| `ScanSpec.WalkEntry` | src/app/api/songs/scan/route.ts:48-75 | one directory entry: no path or cover file is ever removed |
| `ScanSpec.WalkEntries` | src/app/api/songs/scan/route.ts:45-76 | `scanDir` over a listing, stopping at the first exception: no path or cover file is ever removed |
| `ScanSpec.ProcessFileEffect` | src/app/api/songs/scan/route.ts:82-116 | processing a new file. A parse failure changes nothing and returns None. Parsed tags always give a record: the one built from the tags with its cover, inserted under its path, well formed, and its cover exists. Without pictures the covers do not change and the cover is null. With pictures the cover and the covers are what saving the first picture gives. Any new cover file is the one the record names |
| `ScanSpec.VisitFileInsertsExactly` | src/app/api/songs/scan/route.ts:55-69 | one file step only inserts; a record is reported exactly when it is inserted under a path that was absent |
| `ScanSpec.WalkEntryInsertsExactly` | src/app/api/songs/scan/route.ts:48-75 | the same for one directory entry, recursing into directories |
| `ScanSpec.WalkEntriesInsertsExactly` | src/app/api/songs/scan/route.ts:45-79 | a walk only inserts (old records and cover files stay). Each reported record was inserted under a path absent before. No path is reported twice. The new keys are exactly the reported paths, and the catalog grows by exactly the reported count |
| `ScanSpec.WalkEntriesFailsIffAborts` | src/app/api/songs/scan/route.ts:46-53 | the walk fails exactly when the tree holds an entry that cannot be stat-ed or listed, whatever the catalog |
| `ScanSpec.WalkStopsAtFailure` | src/app/api/songs/scan/route.ts:46-53 | after a failure the rest of the listing is not visited |
| `ScanSpec.WalkEntriesSnoc` | src/app/api/songs/scan/route.ts:48-75 | one more entry at the end of a listing is walked after the others, unless they failed |
| `ScanSpec.WalkPair` | src/app/api/songs/scan/route.ts:48-75 | a two-entry listing is its first entry's walk followed by its second's |
| `ScanSpec.WalkEntriesFilters` | src/app/api/songs/scan/route.ts:43-57 | every inserted record belongs to a file of the tree with an allowed extension, and is well formed |
| `ScanSpec.SkippedFileChangesNothing` | src/app/api/songs/scan/route.ts:55-72 | a file with an unsupported extension, or whose tags cannot be parsed, changes nothing and does not stop the walk |
| `ScanSpec.CorruptFileDoesNotStopScan` | src/app/api/songs/scan/route.ts:58-72 | a corrupt file next to a new valid one: the scan does not fail and inserts exactly the valid one |
| `ScanSpec.SharedAlbumSharesOneCover` | src/app/api/songs/scan/route.ts:118-135 | two new tracks of the same artist and album leave at most one new cover file; once it exists both records name it |
| `ScanSpec.VisitFileKeepsInvariant` | src/app/api/songs/scan/route.ts:59-106 | one file step keeps the catalog invariant and writes only covers its record names |
| `ScanSpec.WalkEntryKeepsInvariant` | src/app/api/songs/scan/route.ts:48-75 | the same for one entry |
| `ScanSpec.WalkEntriesKeepsInvariant` | src/app/api/songs/scan/route.ts:59-106 | a walk keeps the invariant. Every key is its record's `filePath`, so no two records share one. Every record is well formed. Every cover a record names exists. A cover file is written only for an inserted record that names it |
| `ScanSpec.SettledEntryGrows` | src/app/api/songs/scan/route.ts:59-64 | a settled entry stays settled when the catalog gains keys |
| `ScanSpec.SettledEntriesGrows` | src/app/api/songs/scan/route.ts:59-64 | the same for a listing |
| `ScanSpec.WalkEntrySettles` | src/app/api/songs/scan/route.ts:59-69 | after walking an entry, each accepted file in it is in the catalog or fails to parse |
| `ScanSpec.WalkEntriesSettles` | src/app/api/songs/scan/route.ts:59-69 | the same for a listing |
| `ScanSpec.SettledEntryIsFixpoint` | src/app/api/songs/scan/route.ts:59-69 | from a settled catalog an entry's walk changes nothing and reports nothing |
| `ScanSpec.SettledEntriesIsFixpoint` | src/app/api/songs/scan/route.ts:59-69 | the same for a listing |
| `ScanSpec.InsertsCompose` | src/app/api/songs/scan/route.ts:48-75 | two walks in sequence insert exactly what each one inserts |
| `ScanSpec.RescanChangesNothing` | src/app/api/songs/scan/route.ts:59-69 | a second scan of an unchanged tree inserts nothing, writes no cover, reports 0 songs, and fails exactly when the first one did |
| `ScanRoute.Status` | src/app/api/songs/scan/route.ts:20-37 | the status code is 200 exactly for a successful scan |
| `ScanRoute.Library.constructor` | src/app/api/songs/scan/route.ts:9-12 | a library over a catalog and covers that satisfy the invariant, as earlier scans leave them, starts valid with an empty result list |
| `ScanRoute.Library.SaveCoverArt` | src/app/api/songs/scan/route.ts:118-155 | an existing cover file is reused and nothing is written; otherwise the file is written, or None is returned and nothing changes when the image library fails; only that one file name can be added. The name's digest is taken over the corrected input `${artist.length}-${artist}-${album}` |
| `ScanRoute.Library.ProcessMusicFile` | src/app/api/songs/scan/route.ts:82-116 | equals `ProcessFile`: cover first, then the insert, which the uniqueness constraint rejects on an existing path; a returned record was inserted under a path absent before |
| `ScanRoute.Library.ScanFile` | src/app/api/songs/scan/route.ts:54-73 | the filter, the lookup and the processing of one file, equal to `VisitFile` |
| `ScanRoute.Library.ScanEntry` | src/app/api/songs/scan/route.ts:48-75 | one loop iteration, equal to `WalkEntry` |
| `ScanRoute.Library.ScanDir` | src/app/api/songs/scan/route.ts:45-76 | the loop over a listing, recursing into directories, equal to `WalkEntries`: catalog, covers, and records pushed to the result list |
| `ScanRoute.Library.ScanMusicDirectory` | src/app/api/songs/scan/route.ts:41-80 | the returned list is exactly the records the walk inserted, the store is the walk's, and the catalog invariant is kept |
| `ScanRoute.Library.Post` | src/app/api/songs/scan/route.ts:9-39 | the covers directory exists afterwards. A missing music directory gives 404 and no change. One that cannot be listed gives 500 and no change. Otherwise the walk runs: 500 if an exception escaped it, else 200 with a count equal to the catalog's growth. The catalog invariant is kept |
| `Listing.ParamOr` | src/app/api/songs/route.ts:9-10 | an absent parameter takes its default (limit 50, page 1) |
| `Listing.Skip` | src/app/api/songs/route.ts:11 | `skip = (page - 1) * limit`, non-negative for `page >= 1` and `limit >= 0`, and `skip + limit = page * limit` |
| `Listing.Get` | src/app/api/songs/route.ts:5-28 | the page is the run of title-ordered rows after `skip`, of length `min(limit, max(0, total - skip))`. `total` is the table size, independent of page and limit. `page` and `limit` are echoed. `hasMore` is `skip + limit < total` |
| `Listing.DefaultsGiveFirstFifty` | src/app/api/songs/route.ts:9-26 | without parameters: page 1, limit 50, the first 50 rows, and `hasMore` exactly when there are more than 50 |
| `Listing.HasMoreIffRowsRemain` | src/app/api/songs/route.ts:11-26 | `hasMore` holds exactly when some row comes after this page's rows |
| `Listing.HasMoreIffNextPageNonEmpty` | src/app/api/songs/route.ts:11-26 | with a positive limit, `hasMore` holds exactly when the next page is not empty |
| `Listing.PagesTile` | src/app/api/songs/route.ts:11-17 | pages 1 to n together are the first `n * limit` rows in order: no row skipped, none repeated |
| `Listing.LastPageCompletesListing` | src/app/api/songs/route.ts:11-26 | following `hasMore` from page 1 lists the whole table |
| `Listing.HundredTwentySongs` | src/app/api/songs/route.ts:11-26 | 120 rows, limit 50: page 1 has 50 rows and `hasMore`; page 3 has the last 20 and no `hasMore` |
| `Listing.PageIsTitleOrdered` | src/app/api/songs/route.ts:13-17 | a page of a title-ordered table is title-ordered |

## Left out

- Filesystem calls: `readdirSync`, `statSync`, `existsSync` and `mkdirSync` become the `Entry` tree and the `MusicDir` value. A failing `mkdirSync` of the covers directory is not modelled. The tree is finite, so symbolic-link cycles cannot occur. Relative paths use '/' and are not normalised.
- The tag parser is an input. Its result carries the duration already rounded by `Math.round`, and no duration when the parsed one is falsy.
- The image library (resize to 300x300, JPEG quality 85) is a predicate telling whether the write succeeds for a picture.
- Records.BuildSong: bitrate is a whole number here. The source stores the parser's bitrate, a JavaScript number, unrounded, so a fractional bitrate is not modelled.
- MD5 is any function to 32 lower-case hex digits. Nothing is assumed about collisions.
- The store is a map from `filePath` to record. The store-assigned `id` is not modelled. Lookup and insert errors other than the uniqueness constraint are not modelled. The listing reads `findMany` and `count` from the same snapshot of the table.
- Two scans running at the same time are not modelled: the check-then-insert race between them.
- Logging, the HTTP response objects, and the database URL printed by `GET` are left out.
- Common.Lower: lower-cases ASCII letters only. The results agree with `toLowerCase` wherever it is used. No non-ASCII character lower-cases to a letter of the five extensions. The sanitiser lower-cases only after every non-ASCII character has become '-'.
- CoverArt.Sanitize: a Dafny `char` is a Unicode scalar value. JavaScript's regular expression without the `u` flag replaces each UTF-16 code unit, so a character outside the Basic Multilingual Plane becomes "--" in the source and "-" here.
- Listing.Get: a query parameter that `parseInt` reads as NaN is not modelled. Neither is a negative `skip` or `limit` (page below 1, or a negative limit): the store's answer to a negative skip or take is not part of the model, which returns `OutOfModel` for it.
- Listing.TitleLe: titles compare by character code. The database collation may order them differently.
- Listing.HasMoreIffNextPageNonEmpty: needs a positive limit. With limit 0 every page is empty, yet `hasMore` is true whenever the table is not empty.

## Findings

| source | as written | input that shows it | evidently intended | confidence | as-written member | corrected member |
|---|---|---|---|---|---|---|
| src/app/api/songs/scan/route.ts:127-128 | the digest input joins the raw artist and album with '-' | artist "a-b" with album "c", and artist "a" with album "b-c": both give the hash input "a-b-c" and the sanitised parts "a-b" + "-" + "c". The file name is the same for every digest, so the second album shows the first album's cover | one cover file per distinct (artist, album) pair ("hash for uniqueness") | medium, not executed | `CoverArt.AsWrittenPairsCollide` | `CoverArt.CoverFileNamesCollideOnlyByDigest` |

The corrected hash input puts the artist's length in front: `${artist.length}-${artist}-${album}`. `CoverArt.HashInputInjective` proves that this input determines the pair. The scan in this model (`CoverArt.CoverFileName`, and through it `ScanSpec` and `ScanRoute`) uses the corrected input. The source's input is `CoverArt.HashInputAsWritten`, used by `CoverArt.CoverFileNameAsWritten`.
