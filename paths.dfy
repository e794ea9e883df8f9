/** The path arithmetic of the scan: the extension of a directory entry as
    `path.extname` computes it, the file name without that extension as
    `path.basename(p, ext)` computes it, the audio allow-list, the stored
    `format`, and the path of an entry relative to the public directory. */
module Paths {
  import opened Common

  /** The allow-list of lower-cased extensions the scan accepts. */
  const SupportedFormats: seq<string> := [".mp3", ".flac", ".m4a", ".wav", ".ogg"]

  /** The `format` values a scanned record can carry: the allow-list without dots. */
  const StoredFormats: set<string> := {"mp3", "flac", "m4a", "wav", "ogg"}

  /** Index of the last '.' in `name`, or -1 when there is none. */
  function LastDot(name: string): (k: int)
    ensures -1 <= k < |name|
    ensures k >= 0 ==> name[k] == '.'
    ensures forall j :: k < j < |name| ==> name[j] != '.'
  {
    if |name| == 0 then -1
    else if name[|name| - 1] == '.' then |name| - 1
    else LastDot(name[..|name| - 1])
  }

  /** `path.extname` of a directory entry (a name without '/'): from the last
      dot to the end, except that a dot in first position (a hidden file such
      as ".mp3") and the name ".." have no extension. */
  function ExtName(name: string): (e: string)
    ensures e == "" || (e[0] == '.' && |e| < |name| && name[|name| - |e|..] == e)
    ensures forall j :: 1 <= j < |e| ==> e[j] != '.'
    ensures e == "" <==> LastDot(name) <= 0 || name == ".."
  {
    var k := LastDot(name);
    if k <= 0 || name == ".." then "" else name[k..]
  }

  /** `path.basename(fullPath, path.extname(fullPath))`: the entry's name with
      its extension stripped; the whole name when it has no extension. */
  function Stem(name: string): (r: string)
    ensures r + ExtName(name) == name
    ensures ExtName(name) == "" ==> r == name
    ensures ExtName(name) != "" ==> r != ""
  {
    var e := ExtName(name);
    assert name[..|name| - |e|] + name[|name| - |e|..] == name;
    name[..|name| - |e|]
  }

  /** `supportedFormats.includes(path.extname(entry).toLowerCase())`. */
  predicate Accepted(name: string)
  {
    Lower(ExtName(name)) in SupportedFormats
  }

  /** `path.extname(fullPath).substring(1).toLowerCase()`: the extension
      without its dot, lower-cased; empty when there is no extension. */
  function Format(name: string): (r: string)
    ensures ExtName(name) == "" ==> r == ""
    ensures ExtName(name) != "" ==> "." + r == Lower(ExtName(name))
  {
    var e := ExtName(name);
    if |e| == 0 then Lower(e)
    else
      LowerDotted(e);
      Lower(e[1..])
  }

  /** Lower-casing keeps a leading dot and lower-cases the rest. */
  lemma LowerDotted(e: string)
    requires |e| > 0 && e[0] == '.'
    ensures "." + Lower(e[1..]) == Lower(e)
  {
    var l, t := Lower(e), Lower(e[1..]);
    assert forall i :: 0 <= i < |t| ==> t[i] == l[i + 1];
  }

  /** `path.join(dir, name)` for a directory path and an entry name. */
  function Join(dir: string, name: string): (r: string)
    ensures |r| == |dir| + 1 + |name|
    ensures r[..|dir|] == dir && r[|dir|] == '/' && r[|dir| + 1..] == name
  {
    dir + "/" + name
  }

  /** Distinct entries of one directory have distinct relative paths. */
  lemma JoinInjective(dir: string, a: string, b: string)
    requires Join(dir, a) == Join(dir, b)
    ensures a == b
  {
    assert a == Join(dir, a)[|dir| + 1..];
  }

  /** Every allow-listed extension is a dot followed by a stored format. */
  lemma SupportedFormatParts(l: string)
    requires l in SupportedFormats
    ensures |l| >= 2 && l[0] == '.' && "." + l[1..] == l
    ensures l[1..] in StoredFormats
  {
    if l == ".mp3" { assert l[1..] == "mp3"; }
    else if l == ".flac" { assert l[1..] == "flac"; }
    else if l == ".m4a" { assert l[1..] == "m4a"; }
    else if l == ".wav" { assert l[1..] == "wav"; }
    else { assert l == ".ogg"; assert l[1..] == "ogg"; }
  }

  /** An accepted file has a non-empty stem: stem and extension put back
      together give the name, and the stored format is the allow-listed
      extension without its dot. */
  lemma AcceptedParts(name: string)
    requires Accepted(name)
    ensures Stem(name) + ExtName(name) == name
    ensures Stem(name) != ""
    ensures Format(name) in StoredFormats
    ensures "." + Format(name) == Lower(ExtName(name))
  {
    SupportedFormatParts(Lower(ExtName(name)));
  }
}
