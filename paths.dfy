/** Where tiles live: the filesystem layout `base/layer/z/x/y.ext` built
    by `make_dir_path` and `make_file_path`, and the object-storage key
    `/date/hash/path/layer/z/x/y.ext` built by `calc_hash` and
    `s3_tile_key` (tilequeue/store.py). */
module TilePaths {
  import opened Decimal
  import opened Quadtree

  type Path = string

  predicate IsHexDigit(c: char) { '0' <= c <= '9' || 'a' <= c <= 'f' }

  /** What `md5.new(s).hexdigest()` returns: 32 lower-case hex digits. */
  type HexDigest = s: string | |s| == 32 && forall i :: 0 <= i < |s| ==> IsHexDigit(s[i])
    witness "00000000000000000000000000000000"

  /** `os.path.join(a, b)` on POSIX: an absolute `b` replaces `a`; otherwise
      one '/' separates them unless `a` is empty or already ends in '/'. */
  function Join(a: Path, b: Path): Path
  {
    if |b| > 0 && b[0] == '/' then b
    else if a == [] || a[|a| - 1] == '/' then a + b
    else a + "/" + b
  }

  /** The separator `Join(a, b)` puts between `a` and a relative `b`. */
  function Separator(a: Path): string
  {
    if a == [] || a[|a| - 1] == '/' then "" else "/"
  }

  /** Joining a numeral never replaces what comes before it, and the result
      ends in that numeral's last digit. */
  lemma JoinNumeral(a: Path, n: nat)
    ensures Join(a, NatToString(n)) == a + Separator(a) + NatToString(n)
    ensures var j := Join(a, NatToString(n)); |j| > 0 && IsDigit(j[|j| - 1])
  {
    var d := NatToString(n);
    assert IsDigit(d[0]) && IsDigit(d[|d| - 1]);
  }

  /** `make_dir_path`: the directory `base/layer/z/x` holding a tile's file. */
  function MakeDirPath(base: Path, c: Coord, layer: string): Path
  {
    Join(Join(Join(base, layer), NatToString(c.zoom)), NatToString(c.column))
  }

  /** `make_file_path`: the file `base/layer/z/x/y.ext` of a tile. */
  function MakeFilePath(base: Path, c: Coord, layer: string, extension: string): Path
  {
    Join(Join(Join(Join(base, layer), NatToString(c.zoom)), NatToString(c.column)), NatToString(c.row))
      + "." + extension
  }

  /** A numeral, a separator, then the rest of a path. */
  function Field(n: nat, sep: char, rest: string): string
  {
    NatToString(n) + [sep] + rest
  }

  /** The part of a tile's path that the coordinate and extension fix:
      `z/x/y.ext`. */
  function CoordTail(c: Coord, extension: string): string
  {
    Field(c.zoom, '/', Field(c.column, '/', Field(c.row, '.', extension)))
  }

  /** A tile's file is the entry `y.ext` directly inside the directory that
      `write_tile` creates for it. */
  lemma FileInDirectory(base: Path, c: Coord, layer: string, extension: string)
    ensures MakeFilePath(base, c, layer, extension)
         == MakeDirPath(base, c, layer) + "/" + NatToString(c.row) + "." + extension
  {
    var j1 := Join(base, layer);
    JoinNumeral(j1, c.zoom);
    var j2 := Join(j1, NatToString(c.zoom));
    JoinNumeral(j2, c.column);
    var j3 := Join(j2, NatToString(c.column));
    JoinNumeral(j3, c.row);
  }

  /** Below `base/layer`, a tile's file path is its coordinate tail. */
  lemma FilePathShape(base: Path, c: Coord, layer: string, extension: string)
    ensures var j := Join(base, layer);
      MakeFilePath(base, c, layer, extension) == j + Separator(j) + CoordTail(c, extension)
  {
    var z, x, y := NatToString(c.zoom), NatToString(c.column), NatToString(c.row);
    var j1 := Join(base, layer);
    JoinNumeral(j1, c.zoom);
    var j2 := Join(j1, z);
    JoinNumeral(j2, c.column);
    var j3 := Join(j2, x);
    JoinNumeral(j3, c.row);
    var j4 := Join(j3, y);
    var t3 := Field(c.row, '.', extension);
    var t2 := Field(c.column, '/', t3);
    var t1 := Field(c.zoom, '/', t2);
    Regroup(j3, "/", y, '.', extension);
    Regroup(j2, "/", x, '/', t3);
    Regroup(j1, Separator(j1), z, '/', t2);
  }

  lemma Regroup(a: string, sep: string, n: string, sep': char, rest: string)
    ensures (a + sep + n) + [sep'] + rest == a + sep + (n + [sep'] + rest)
  {
  }

  /** Number of leading decimal digits of `s`. */
  function DigitPrefixLength(s: string): nat
  {
    if s == [] || !IsDigit(s[0]) then 0 else 1 + DigitPrefixLength(s[1..])
  }

  lemma {:induction false} DigitPrefixOf(a: string, rest: string)
    requires AllDigits(a) && rest != [] && !IsDigit(rest[0])
    ensures DigitPrefixLength(a + rest) == |a|
  {
    if a == [] {
      assert a + rest == rest;
    } else {
      assert (a + rest)[0] == a[0];
      assert (a + rest)[1..] == a[1..] + rest;
      DigitPrefixOf(a[1..], rest);
    }
  }

  /** A numeral followed by a non-digit separator can be split off
      unambiguously. */
  lemma FieldInjective(a: nat, r1: string, b: nat, r2: string, sep: char)
    requires !IsDigit(sep) && Field(a, sep, r1) == Field(b, sep, r2)
    ensures a == b && r1 == r2
  {
    var s1, s2 := NatToString(a), NatToString(b);
    var f := Field(a, sep, r1);
    assert f == s1 + ([sep] + r1) && f == s2 + ([sep] + r2);
    DigitPrefixOf(s1, [sep] + r1);
    DigitPrefixOf(s2, [sep] + r2);
    assert s1 == f[..|s1|] && s2 == f[..|s2|];
    assert r1 == f[|s1| + 1..] && r2 == f[|s2| + 1..];
    NatToStringInjective(a, b);
  }

  /** Distinct tiles (or extensions) have distinct coordinate tails. */
  lemma CoordTailInjective(c1: Coord, e1: string, c2: Coord, e2: string)
    requires CoordTail(c1, e1) == CoordTail(c2, e2)
    ensures c1 == c2 && e1 == e2
  {
    FieldInjective(c1.zoom, Field(c1.column, '/', Field(c1.row, '.', e1)),
                   c2.zoom, Field(c2.column, '/', Field(c2.row, '.', e2)), '/');
    FieldInjective(c1.column, Field(c1.row, '.', e1), c2.column, Field(c2.row, '.', e2), '/');
    FieldInjective(c1.row, e1, c2.row, e2, '.');
  }

  /** Under one base directory and layer, distinct tiles (or extensions)
      never share a file. */
  lemma MakeFilePathInjective(base: Path, layer: string, c1: Coord, e1: string, c2: Coord, e2: string)
    requires MakeFilePath(base, c1, layer, e1) == MakeFilePath(base, c2, layer, e2)
    ensures c1 == c2 && e1 == e2
  {
    FilePathShape(base, c1, layer, e1);
    FilePathShape(base, c2, layer, e2);
    var j := Join(base, layer);
    var p := j + Separator(j);
    assert CoordTail(c1, e1) == MakeFilePath(base, c1, layer, e1)[|p|..];
    assert CoordTail(c2, e2) == MakeFilePath(base, c2, layer, e2)[|p|..];
    CoordTailInjective(c1, e1, c2, e2);
  }

  /** Text appended to a tile's file path extends its extension. */
  lemma MakeFilePathExtend(base: Path, c: Coord, layer: string, extension: string, more: string)
    ensures MakeFilePath(base, c, layer, extension) + more == MakeFilePath(base, c, layer, extension + more)
  {
    var j := Join(Join(Join(Join(base, layer), NatToString(c.zoom)), NatToString(c.column)), NatToString(c.row));
    assert (j + "." + extension) + more == j + "." + (extension + more);
  }

  /** `calc_hash`: the first five hex digits of the md5 digest of `s`. The
      digest is a parameter: md5 itself is not part of this model. */
  function CalcHash(md5: string -> HexDigest, s: string): (h: string)
    ensures |h| == 5
    ensures forall i :: 0 <= i < 5 ==> IsHexDigit(h[i])
    ensures h == md5(s)[..5]
  {
    md5(s)[..5]
  }

  /** The hashed part of an object key: `/path/layer/z/x/y.ext`, or
      `/layer/z/x/y.ext` when the path is empty. */
  function HashedPath(path: string, layer: string, c: Coord, extension: string): string
  {
    var prefix := if path == [] then "" else "/" + path;
    prefix + "/" + layer + "/" + CoordTail(c, extension)
  }

  /** `s3_tile_key`: `/date/` then the hash of the path after it, then that
      path. */
  function S3TileKey(md5: string -> HexDigest, date: string, path: string, layer: string,
                     c: Coord, extension: string): (key: string)
    ensures |key| == |date| + 7 + |HashedPath(path, layer, c, extension)|
    ensures key[..|date| + 2] == "/" + date + "/"
    ensures key[|date| + 7..] == HashedPath(path, layer, c, extension)
    ensures key[|date| + 2..|date| + 7] == CalcHash(md5, key[|date| + 7..])
    ensures key[|date| + 2..] == CalcHash(md5, HashedPath(path, layer, c, extension)) + HashedPath(path, layer, c, extension)
  {
    var pathToHash := HashedPath(path, layer, c, extension);
    "/" + date + "/" + CalcHash(md5, pathToHash) + pathToHash
  }

  /** The date only prefixes the key: the hash and the path after it are
      the same whatever the date. */
  lemma S3KeyIndependentOfDate(md5: string -> HexDigest, d1: string, d2: string, path: string,
                               layer: string, c: Coord, extension: string)
    ensures var k1 := S3TileKey(md5, d1, path, layer, c, extension);
      var k2 := S3TileKey(md5, d2, path, layer, c, extension);
      k1[|d1| + 2..] == k2[|d2| + 2..] && k1 == "/" + d1 + k2[|d2| + 1..]
  {
    var k1 := S3TileKey(md5, d1, path, layer, c, extension);
    var k2 := S3TileKey(md5, d2, path, layer, c, extension);
    assert k1[..|d1| + 2] == "/" + d1 + "/";
    assert k1 == k1[..|d1| + 2] + k1[|d1| + 2..];
    assert k2[|d2| + 1..] == "/" + k2[|d2| + 2..];
  }

  /** With the same date, path and layer, distinct tiles get distinct keys. */
  lemma S3KeyInjective(md5: string -> HexDigest, date: string, path: string, layer: string,
                       c1: Coord, c2: Coord, extension: string)
    requires S3TileKey(md5, date, path, layer, c1, extension)
          == S3TileKey(md5, date, path, layer, c2, extension)
    ensures c1 == c2
  {
    var h1 := HashedPath(path, layer, c1, extension);
    var h2 := HashedPath(path, layer, c2, extension);
    assert h1 == h2;
    var prefix := (if path == [] then "" else "/" + path) + "/" + layer + "/";
    assert h1 == prefix + CoordTail(c1, extension);
    assert h2 == prefix + CoordTail(c2, extension);
    assert CoordTail(c1, extension) == h1[|prefix|..];
    assert CoordTail(c2, extension) == h2[|prefix|..];
    CoordTailInjective(c1, extension, c2, extension);
  }
}
