/** The naming half of `saveCoverArt`: the sanitiser, the digest prefix and
    the cover file name derived from a track's artist and album. Writing the
    file is in ScanSpec/ScanRoute; the image encoder is not modelled. */
module CoverArt {
  import opened Common

  predicate IsHexDigit(c: char) { IsDigit(c) || 'a' <= c <= 'f' }

  /** An MD5 digest as `digest('hex')` prints it: 32 lower-case hex digits. */
  type Digest = s: string | |s| == 32 && forall i :: 0 <= i < |s| ==> IsHexDigit(s[i])
    witness "00000000000000000000000000000000"

  /** A character a sanitised name may contain: `[a-z0-9-]`. */
  predicate IsSafeChar(c: char) { IsLower(c) || IsDigit(c) || c == '-' }

  /** `s.replace(/[^a-zA-Z0-9]/g, '-')`. */
  function ReplaceNonAlnum(s: string): string {
    seq(|s|, i requires 0 <= i < |s| => if IsAlnum(s[i]) then s[i] else '-')
  }

  /** `s.replace(/[^a-zA-Z0-9]/g, '-').toLowerCase()`: same length as `s`,
      only `[a-z0-9-]`, every alphanumeric character kept (lower-cased) in its
      place and every other character turned into '-'. */
  function Sanitize(s: string): (r: string)
    ensures |r| == |s|
    ensures forall i :: 0 <= i < |r| ==> IsSafeChar(r[i])
    ensures forall i :: 0 <= i < |s| ==> (IsAlnum(s[i]) <==> r[i] != '-')
    ensures forall i :: 0 <= i < |s| && IsAlnum(s[i]) ==> r[i] == LowerChar(s[i])
  {
    Lower(ReplaceNonAlnum(s))
  }

  /** Sanitising a sanitised name changes nothing. */
  lemma SanitizeIdempotent(s: string)
    ensures Sanitize(Sanitize(s)) == Sanitize(s)
  {
    var t := Sanitize(s);
    forall i | 0 <= i < |t| ensures Sanitize(t)[i] == t[i] {
      if t[i] != '-' {
        assert IsAlnum(t[i]) && !IsUpper(t[i]);
      }
    }
  }

  /** The artist and album `saveCoverArt` names the file after default to this. */
  const Unknown := "unknown"

  /** The hash input exactly as the source builds it: `${artist}-${album}`. */
  function HashInputAsWritten(artist: string, album: string): (r: string)
    ensures |r| == |artist| + 1 + |album|
    ensures r[..|artist|] == artist && r[|artist|] == '-' && r[|artist| + 1..] == album
  {
    artist + "-" + album
  }

  function DigitChar(d: nat): (c: char)
    requires d < 10
    ensures IsDigit(c)
  {
    ('0' as int + d) as char
  }

  /** The decimal numeral of `n`, as `${n}` prints it. */
  function Decimal(n: nat): (r: string)
    ensures |r| >= 1
    ensures forall i :: 0 <= i < |r| ==> IsDigit(r[i])
    ensures n >= 10 ==> |r| >= 2
    decreases n
  {
    if n < 10 then [DigitChar(n)] else Decimal(n / 10) + [DigitChar(n % 10)]
  }

  /** Distinct numbers have distinct numerals. */
  lemma {:induction false} DecimalInjective(m: nat, n: nat)
    requires Decimal(m) == Decimal(n)
    ensures m == n
    decreases m
  {
    if m >= 10 && n >= 10 {
      var dm, dn := Decimal(m), Decimal(n);
      assert dm[|dm| - 1] == DigitChar(m % 10);
      assert dn[|dn| - 1] == DigitChar(n % 10);
      assert Decimal(m / 10) == dm[..|dm| - 1];
      assert Decimal(n / 10) == dn[..|dn| - 1];
      DecimalInjective(m / 10, n / 10);
    } else if m < 10 && n < 10 {
      assert Decimal(m)[0] == DigitChar(m);
    }
  }

  /** The corrected hash input: the artist's length in front makes the pair
      recoverable from the string, `${artist.length}-${artist}-${album}`. */
  function HashInput(artist: string, album: string): string {
    Decimal(|artist|) + "-" + artist + "-" + album
  }

  /** Two pairs share a corrected hash input only when they are the same pair. */
  lemma HashInputInjective(a1: string, b1: string, a2: string, b2: string)
    requires HashInput(a1, b1) == HashInput(a2, b2)
    ensures a1 == a2 && b1 == b2
  {
    var s := HashInput(a1, b1);
    var d1, d2 := Decimal(|a1|), Decimal(|a2|);
    assert s == d1 + ("-" + a1 + "-" + b1);
    assert s == d2 + ("-" + a2 + "-" + b2);
    assert s[|d1|] == '-' && s[|d2|] == '-';
    assert forall i :: 0 <= i < |d1| ==> IsDigit(s[i]);
    assert forall i :: 0 <= i < |d2| ==> IsDigit(s[i]);
    assert d1 == s[..|d1|] == d2;
    DecimalInjective(|a1|, |a2|);
    assert a1 == s[|d1| + 1..|d1| + 1 + |a1|] == a2;
    assert b1 == s[|d1| + 2 + |a1|..] == b2;
  }

  /** `name` is `${sanitizedArtist}-${sanitizedAlbum}-${hash8}.jpg`, spelled
      out position by position. */
  predicate NamedAfter(name: string, artist: string, album: string, hash8: string) {
    var a, b, h := |artist|, |album|, |hash8|;
    && |name| == a + b + h + 6
    && name[..a] == Sanitize(artist)
    && name[a] == '-'
    && name[a + 1..a + 1 + b] == Sanitize(album)
    && name[a + 1 + b] == '-'
    && name[a + 2 + b..a + 2 + b + h] == hash8
    && name[a + 2 + b + h..] == ".jpg"
  }

  /** `${sanitizedArtist}-${sanitizedAlbum}-${hash}.jpg`: when the hash is
      made of safe characters, so is everything before ".jpg". */
  function FileName(artist: string, album: string, hash8: string): (r: string)
    ensures NamedAfter(r, artist, album, hash8)
    ensures (forall i :: 0 <= i < |hash8| ==> IsSafeChar(hash8[i])) ==>
              forall i :: 0 <= i < |r| - 4 ==> IsSafeChar(r[i])
  {
    var sa, sb := Sanitize(artist), Sanitize(album);
    var r := sa + "-" + sb + "-" + hash8 + ".jpg";
    assert r == sa + ("-" + sb + "-") + hash8 + ".jpg";
    assert r[..|sa|] == sa;
    assert r[|sa| + 1..|sa| + 1 + |sb|] == sb;
    r
  }

  /** The first eight hex digits of a digest are safe file-name characters. */
  lemma DigestPrefixSafe(d: Digest)
    ensures forall i :: 0 <= i < |d[..8]| ==> IsSafeChar(d[..8][i])
  {
    assert forall i :: 0 <= i < 8 ==> IsHexDigit(d[i]);
  }

  /** The cover file name as the source computes it: the hash covers
      `${artist}-${album}`. */
  function CoverFileNameAsWritten(md5: string -> Digest, artistTag: Option<string>, albumTag: Option<string>): (r: string)
    ensures var artist := StringOr(artistTag, Unknown);
            var album := StringOr(albumTag, Unknown);
            NamedAfter(r, artist, album, md5(HashInputAsWritten(artist, album))[..8])
  {
    var artist := StringOr(artistTag, Unknown);
    var album := StringOr(albumTag, Unknown);
    FileName(artist, album, md5(HashInputAsWritten(artist, album))[..8])
  }

  /** With the hash input as written, the pairs ("a-b", "c") and ("a", "b-c")
      get the same cover file whatever the digest function: the second album
      is shown the first one's cover. */
  lemma AsWrittenPairsCollide(md5: string -> Digest)
    ensures StringOr(Some("a-b"), Unknown) != StringOr(Some("a"), Unknown)
    ensures CoverFileNameAsWritten(md5, Some("a-b"), Some("c")) == CoverFileNameAsWritten(md5, Some("a"), Some("b-c"))
  {
    assert HashInputAsWritten("a-b", "c") == HashInputAsWritten("a", "b-c");
    assert Sanitize("a-b") == "a-b";
    assert Sanitize("b-c") == "b-c";
    assert Sanitize("a") == "a";
    assert Sanitize("c") == "c";
  }

  /** The cover file name the model uses: as written, but the digest is
      taken over the corrected hash input `${artist.length}-${artist}-${album}`,
      with "unknown" for a missing artist or album. Everything before ".jpg"
      is `[a-z0-9-]`; CoverFileNameShape spells out the whole name. */
  function CoverFileName(md5: string -> Digest, artistTag: Option<string>, albumTag: Option<string>): (r: string)
    ensures forall i :: 0 <= i < |r| - 4 ==> IsSafeChar(r[i])
  {
    var artist := StringOr(artistTag, Unknown);
    var album := StringOr(albumTag, Unknown);
    var d := md5(HashInput(artist, album));
    DigestPrefixSafe(d);
    FileName(artist, album, d[..8])
  }

  /** The cover file name is the sanitised artist, '-', the sanitised album,
      '-', the first eight hex digits of the digest of the corrected hash
      input, and ".jpg". */
  lemma CoverFileNameShape(md5: string -> Digest, artistTag: Option<string>, albumTag: Option<string>)
    ensures var artist := StringOr(artistTag, Unknown);
            var album := StringOr(albumTag, Unknown);
            NamedAfter(CoverFileName(md5, artistTag, albumTag), artist, album, md5(HashInput(artist, album))[..8])
  {
  }

  /** The public path `saveCoverArt` returns for a cover file. */
  function CoverPath(fileName: string): (p: string)
    ensures |p| == |fileName| + 8 && p[..8] == "/covers/" && p[8..] == fileName
  {
    "/covers/" + fileName
  }

  /** With the corrected hash input two different (artist, album) pairs share
      a cover file only through a genuine collision of the first eight hex
      digits of the digests of two different inputs. */
  lemma CoverFileNamesCollideOnlyByDigest(md5: string -> Digest,
                                         artist1: Option<string>, album1: Option<string>,
                                         artist2: Option<string>, album2: Option<string>)
    requires CoverFileName(md5, artist1, album1) == CoverFileName(md5, artist2, album2)
    requires (StringOr(artist1, Unknown), StringOr(album1, Unknown)) != (StringOr(artist2, Unknown), StringOr(album2, Unknown))
    ensures var k1 := HashInput(StringOr(artist1, Unknown), StringOr(album1, Unknown));
            var k2 := HashInput(StringOr(artist2, Unknown), StringOr(album2, Unknown));
            k1 != k2 && md5(k1)[..8] == md5(k2)[..8]
  {
    var a1, b1 := StringOr(artist1, Unknown), StringOr(album1, Unknown);
    var a2, b2 := StringOr(artist2, Unknown), StringOr(album2, Unknown);
    if HashInput(a1, b1) == HashInput(a2, b2) {
      HashInputInjective(a1, b1, a2, b2);
    }
  }
}
