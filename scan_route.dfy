/** The scan endpoint as the source runs it: a library object whose catalog,
    covers directory and result list the walk updates in place, entry by
    entry. Each method is proved to do what the corresponding function of
    ScanSpec describes. */
module ScanRoute {
  import opened Common
  import opened Paths
  import opened Records
  import opened CoverArt
  import opened ScanSpec

  /** What the music directory is when the scan starts. */
  datatype MusicDir =
    | Missing                              // `existsSync` is false
    | NotADirectory                        // it exists but cannot be listed
    | Directory(entries: seq<Entry>)

  /** The endpoint's answer: 200 with the count, 404, or 500. */
  datatype ScanResponse = Scanned(count: nat) | NotFound | Failed

  function Status(r: ScanResponse): (code: int)
    ensures code == 200 <==> r.Scanned?
  {
    match r
    case Scanned(_) => 200
    case NotFound => 404
    case Failed => 500
  }

  class Library {
    /** The digest function and the image library. */
    const env: Env
    /** The song table, keyed by `filePath`. */
    var catalog: map<string, Song>
    /** The names of the files in the covers directory. */
    var covers: set<string>
    var coversDirExists: bool
    /** The `songs` array `scanMusicDirectory` fills. */
    var found: seq<Song>

    function State(): Store
      reads this
    {
      Store(catalog, covers)
    }

    /** The catalog invariant of ScanSpec holds for the current state. */
    ghost predicate Valid()
      reads this
    {
      Invariant(State())
    }

    /** A library over a catalog and covers directory that satisfy the
        invariant, as every earlier scan leaves them. */
    constructor (env: Env, catalog: map<string, Song>, covers: set<string>, coversDirExists: bool)
      requires Invariant(Store(catalog, covers))
      ensures Valid()
      ensures this.env == env && this.catalog == catalog && this.covers == covers
      ensures this.coversDirExists == coversDirExists && found == []
    {
      this.env := env;
      this.catalog := catalog;
      this.covers := covers;
      this.coversDirExists := coversDirExists;
      this.found := [];
    }

    /** `saveCoverArt`: reuse the cover file of the track's (artist, album)
        when it exists, otherwise write it; None when the image library fails. */
    method SaveCoverArt(picture: Picture, artistTag: Option<string>, albumTag: Option<string>)
      returns (path: Option<string>)
      modifies this`covers
      ensures (path, covers) == SaveCover(env, old(covers), picture, artistTag, albumTag)
      ensures var name := CoverFileName(env.md5, artistTag, albumTag);
              && (name in old(covers) ==> path == Some(CoverPath(name)) && covers == old(covers))
              && (path.Some? ==> path == Some(CoverPath(name)) && name in covers)
              && (path.None? ==> covers == old(covers))
              && covers <= old(covers) + {name}
    {
      var name := CoverFileName(env.md5, artistTag, albumTag);
      if name in covers {
        return Some(CoverPath(name));
      }
      if env.encodes(picture) {
        covers := covers + {name};
        path := Some(CoverPath(name));
      } else {
        path := None;
      }
    }

    /** `processMusicFile`: the cover first, then the insert. */
    method ProcessMusicFile(relPath: string, name: string, size: nat, parsed: Option<Tags>)
      returns (song: Option<Song>)
      requires Accepted(name)
      modifies this`catalog, this`covers
      ensures (State(), song) == ProcessFile(env, old(State()), relPath, name, size, parsed)
      ensures song.Some? ==> relPath !in old(catalog) && catalog == old(catalog)[relPath := song.value]
      ensures song.None? ==> catalog == old(catalog)
    {
      if parsed.None? {
        return None;
      }
      var tags := parsed.value;
      var cover: Option<string> := None;
      if |tags.pictures| > 0 {
        cover := SaveCoverArt(tags.pictures[0], tags.artist, tags.album);
      }
      if relPath in catalog {
        // the store's uniqueness constraint on filePath rejects the insert
        return None;
      }
      var s := BuildSong(tags, name, relPath, size, cover);
      catalog := catalog[relPath := s];
      song := Some(s);
    }

    /** The body of `scanDir`'s loop for a regular file: the extension
        filter, the lookup of the relative path, and processing. */
    method ScanFile(dir: string, name: string, size: nat, parsed: Option<Tags>)
      modifies this`catalog, this`covers, this`found
      ensures var w := VisitFile(env, old(State()), dir, name, size, parsed);
              State() == w.store && found == old(found) + w.added
    {
      if Accepted(name) {
        var relPath := Join(dir, name);
        if relPath !in catalog {
          var song := ProcessMusicFile(relPath, name, size, parsed);
          if song.Some? {
            found := found + [song.value];
          }
        }
      }
    }

    /** One iteration of `scanDir`'s loop: recurse into a directory, visit a
        file, skip anything else; a failing `statSync` ends the walk. */
    method ScanEntry(dir: string, e: Entry) returns (failed: bool)
      modifies this`catalog, this`covers, this`found
      ensures var w := WalkEntry(env, old(State()), dir, e);
              State() == w.store && found == old(found) + w.added && failed == w.failed
      decreases e
    {
      match e {
        case Dir(name, children) =>
          failed := ScanDir(Join(dir, name), children);
        case File(name, size, parsed) =>
          ScanFile(dir, name, size, parsed);
          failed := false;
        case Special(_) =>
          failed := false;
        case Unreadable(_) =>
          failed := true;
      }
    }

    /** `scanDir`: the entries of one directory in order, recursing into
        subdirectories; an entry that cannot be stat-ed or listed ends the
        whole walk with `failed`. */
    method ScanDir(dir: string, entries: seq<Entry>) returns (failed: bool)
      modifies this`catalog, this`covers, this`found
      ensures var w := WalkEntries(env, old(State()), dir, entries);
              State() == w.store && found == old(found) + w.added && failed == w.failed
      decreases entries
    {
      ghost var st0 := State();
      ghost var found0 := found;
      failed := false;
      var i := 0;
      while i < |entries| && !failed
        invariant 0 <= i <= |entries|
        invariant var w := WalkEntries(env, st0, dir, entries[..i]);
                  State() == w.store && found == found0 + w.added && failed == w.failed
      {
        failed := ScanEntry(dir, entries[i]);
        assert entries[..i + 1] == entries[..i] + [entries[i]];
        WalkEntriesSnoc(env, st0, dir, entries[..i], entries[i]);
        i := i + 1;
      }
      if failed {
        WalkStopsAtFailure(env, st0, dir, entries, i);
      } else {
        assert entries[..i] == entries;
      }
    }

    /** `scanMusicDirectory`: a fresh result list, then the walk. */
    method ScanMusicDirectory(entries: seq<Entry>) returns (songs: seq<Song>, failed: bool)
      modifies this`catalog, this`covers, this`found
      ensures var w := WalkEntries(env, old(State()), MusicRoot, entries);
              State() == w.store && songs == found == w.added && failed == w.failed
    ensures old(Valid()) ==> Valid()
    {
      ghost var st := State();
      found := [];
      failed := ScanDir(MusicRoot, entries);
      songs := found;
      if Invariant(st) {
        WalkEntriesKeepsInvariant(env, st, MusicRoot, entries);
      }
    }

    /** `POST`: make sure the covers directory exists, answer 404 when the
        music directory is missing, otherwise scan and report how many songs
        were inserted; an exception escaping the walk gives 500, and the
        inserts made before it stay. */
    method Post(music: MusicDir) returns (response: ScanResponse)
      modifies this`catalog, this`covers, this`coversDirExists, this`found
      ensures coversDirExists
      ensures !music.Directory? ==> State() == old(State())
      ensures music.Missing? ==> response == NotFound
      ensures music.NotADirectory? ==> response == Failed
      ensures music.Directory? ==>
                var w := WalkEntries(env, old(State()), MusicRoot, music.entries);
                && State() == w.store
                && response == (if w.failed then Failed else Scanned(|w.added|))
      ensures response.Scanned? ==> |catalog| == |old(catalog)| + response.count
      ensures old(Valid()) ==> Valid()
    {
      if !coversDirExists {
        coversDirExists := true;
      }
      match music {
        case Missing =>
          response := NotFound;
        case NotADirectory =>
          response := Failed;
        case Directory(entries) =>
          ghost var st := State();
          var songs, failed := ScanMusicDirectory(entries);
          WalkEntriesInsertsExactly(env, st, MusicRoot, entries);
          if Invariant(st) {
            WalkEntriesKeepsInvariant(env, st, MusicRoot, entries);
          }
          response := if failed then Failed else Scanned(|songs|);
      }
    }
  }
}
