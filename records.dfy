/** The song record the scan inserts, and the tag data it is built from. */
module Records {
  import opened Common
  import opened Paths

  /** An embedded image as the tag parser returns it; only its bytes matter. */
  datatype Picture = Picture(data: seq<bv8>)

  /** What the tag parser reports for one audio file. `duration` is already
      rounded to whole seconds, and is absent when the parsed duration is
      falsy (missing or 0); `bitrate` is taken to be a whole number of bits
      per second. */
  datatype Tags = Tags(
    title: Option<string>,
    artist: Option<string>,
    album: Option<string>,
    genre: Option<seq<string>>,
    year: Option<int>,
    duration: Option<int>,
    trackNo: Option<int>,
    bitrate: Option<int>,
    pictures: seq<Picture>)

  /** A row of the catalog. The store-assigned identifier is not modelled. */
  datatype Song = Song(
    title: string,
    artist: string,
    album: Option<string>,
    genre: Option<string>,
    year: Option<int>,
    duration: Option<int>,
    trackNumber: Option<int>,
    filePath: string,
    fileSize: nat,
    format: string,
    bitrate: Option<int>,
    coverArt: Option<string>)

  const UnknownArtist := "Unknown Artist"

  /** `genre?.[0]`: the first genre, when there is a list with one. */
  function FirstGenre(genre: Option<seq<string>>): (r: Option<string>)
    ensures r.Some? <==> genre.Some? && |genre.value| > 0
    ensures r.Some? ==> r.value == genre.value[0]
  {
    if genre.Some? && |genre.value| > 0 then Some(genre.value[0]) else None
  }

  /** What every record the scan builds satisfies: title and artist are never
      empty, the optional fields hold no falsy value (those became null), and
      the format is one of the allow-listed extensions. */
  predicate WellFormed(s: Song) {
    && s.title != ""
    && s.artist != ""
    && s.album != Some("")
    && s.genre != Some("")
    && s.year != Some(0)
    && s.trackNumber != Some(0)
    && s.bitrate != Some(0)
    && s.format in StoredFormats
  }

  /** The record `processMusicFile` hands to the store for the audio file
      `name` at `relPath`, with its tags, its size and its cover path. */
  function BuildSong(tags: Tags, name: string, relPath: string, size: nat, cover: Option<string>): (r: Song)
    requires Accepted(name)
    ensures WellFormed(r)
    ensures r.filePath == relPath && r.fileSize == size && r.coverArt == cover
    ensures r.duration == tags.duration
    ensures TruthyString(tags.title) ==> r.title == tags.title.value
    ensures !TruthyString(tags.title) ==> r.title + ExtName(name) == name
    ensures TruthyString(tags.artist) ==> r.artist == tags.artist.value
    ensures !TruthyString(tags.artist) ==> r.artist == UnknownArtist
    ensures r.album.Some? <==> TruthyString(tags.album)
    ensures r.album.Some? ==> r.album == tags.album
    ensures r.genre.Some? <==> TruthyString(FirstGenre(tags.genre))
    ensures r.genre.Some? ==> r.genre.value == tags.genre.value[0]
    ensures r.year.Some? <==> TruthyNumber(tags.year)
    ensures r.year.Some? ==> r.year == tags.year
    ensures r.trackNumber.Some? <==> TruthyNumber(tags.trackNo)
    ensures r.trackNumber.Some? ==> r.trackNumber == tags.trackNo
    ensures r.bitrate.Some? <==> TruthyNumber(tags.bitrate)
    ensures r.bitrate.Some? ==> r.bitrate == tags.bitrate
    ensures "." + r.format == Lower(ExtName(name))
  {
    AcceptedParts(name);
    Song(
      title := StringOr(tags.title, Stem(name)),
      artist := StringOr(tags.artist, UnknownArtist),
      album := StringOrNull(tags.album),
      genre := StringOrNull(FirstGenre(tags.genre)),
      year := NumberOrNull(tags.year),
      duration := tags.duration,
      trackNumber := NumberOrNull(tags.trackNo),
      filePath := relPath,
      fileSize := size,
      format := Format(name),
      bitrate := NumberOrNull(tags.bitrate),
      coverArt := cover)
  }
}
