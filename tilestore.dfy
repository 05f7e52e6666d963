/** The tile stores of tilequeue/store.py that keep tiles locally:
    `TileDirectory`, one file per tile under a base directory, written
    through a swap file and `os_replace`; `Memory`, a one-slot store; and
    `write_tile_if_changed`, which reads back before writing and writes only
    when the content differs. */
module TileStore {
  import opened Common
  import opened Decimal
  import opened Quadtree
  import opened TilePaths
  import opened LocalFs
  import opened Replace

  /** A tile format; only its extension takes part in paths. */
  datatype Format = Format(name: string, extension: string, mimetype: string)

  /** `random.randint(1, 1000000)`. */
  type Nonce = n: int | 1 <= n <= 1000000 witness 1

  /** What makes a swap file name unique to one writer: the process id, the
      thread ident and a random number. They are inputs here. */
  datatype SwapTag = SwapTag(pid: nat, thread: nat, nonce: Nonce)

  /** `.swp-pid-thread-nonce`, appended to a tile's file name. */
  function SwapSuffix(tag: SwapTag): (sfx: string)
    ensures |sfx| > 0 && sfx[0] == '.'
  {
    ".swp-" + NatToString(tag.pid) + "-" + NatToString(tag.thread) + "-" + NatToString(tag.nonce as nat)
  }

  /** The swap file `write_tile` writes before moving it over the tile. */
  function SwapPath(file: Path, tag: SwapTag): Path
  {
    file + SwapSuffix(tag)
  }

  /** A swap file lies next to its tile's file and is never the file of any
      tile of the same layer and format, so writing it clobbers no tile. */
  lemma SwapIsNoTile(base: Path, layer: string, extension: string, c: Coord, tag: SwapTag, other: Coord)
    ensures var file := MakeFilePath(base, c, layer, extension);
      SwapPath(file, tag)[..|file|] == file && SwapPath(file, tag) != MakeFilePath(base, other, layer, extension)
  {
    var file := MakeFilePath(base, c, layer, extension);
    var sfx := SwapSuffix(tag);
    MakeFilePathExtend(base, c, layer, extension, sfx);
    if SwapPath(file, tag) == MakeFilePath(base, other, layer, extension) {
      MakeFilePathInjective(base, layer, c, extension + sfx, other, extension);
    }
  }

  // ---------------------------------------------------------------
  // TileDirectory, as functions of the filesystem state
  // ---------------------------------------------------------------

  /** Writing `data` to `file` through `swap`: create `dir`, write the data
      to `swap`, then `os_replace` it over `file`. If the write or the
      replace fails, `swap` is removed (that removal may itself fail
      harmlessly) and the error is raised again. */
  function WriteThrough(s: FsState, platform: Platform, dir: Path, file: Path, swap: Path,
                        data: Bytes): (FsState, Option<OsError>)
  {
    var s1 := MakeDirsStep(s, dir);
    var w := WriteStep(s1, swap, data);
    if !w.1 then (RemoveStep(w.0, swap).0, Some(OpenError(swap)))
    else
      var r := ReplaceSpec(w.0, platform, swap, file);
      if r.1.None? then r else (RemoveStep(r.0, swap).0, r.1)
  }

  /** `TileDirectory.write_tile`: the tile's directory, its file and its
      swap file put into `WriteThrough`. */
  function WriteTileSpec(s: FsState, platform: Platform, base: Path, data: Bytes, c: Coord,
                         format: Format, layer: string, tag: SwapTag): (FsState, Option<OsError>)
  {
    var file := MakeFilePath(base, c, layer, format.extension);
    WriteThrough(s, platform, MakeDirPath(base, c, layer), file, SwapPath(file, tag), data)
  }

  lemma WriteThroughSucceeded(s: FsState, platform: Platform, dir: Path, file: Path, swap: Path, data: Bytes)
    requires WriteThrough(s, platform, dir, file, swap, data).1.None?
    ensures var s' := WriteThrough(s, platform, dir, file, swap, data).0;
      s'.files == (s.files - {swap})[file := data] && s'.dirs == s.dirs + {dir}
  {
    var w := WriteStep(MakeDirsStep(s, dir), swap, data);
    ReplaceFiles(w.0, platform, swap, file);
    UpdateThenRemove(s.files, swap, data, {swap});
  }

  lemma WriteThroughFailed(s: FsState, platform: Platform, dir: Path, file: Path, swap: Path, data: Bytes)
    requires swap != file
    requires WriteThrough(s, platform, dir, file, swap, data).1.Some?
    ensures var r := WriteThrough(s, platform, dir, file, swap, data);
      && swap !in r.0.files
      && (r.0.files == s.files - {swap} || (platform == Emulated && r.0.files == s.files - {swap} - {file}))
      && (NextFails(s) ==> r.1 == Some(OpenError(swap)))
      && (!NextFails(s) ==>
            r.1 == Some(if platform == Emulated then ReplaceError(RenameError(swap, file)) else RenameError(swap, file)))
  {
    var w := WriteStep(MakeDirsStep(s, dir), swap, data);
    if w.1 {
      var r := ReplaceSpec(w.0, platform, swap, file);
      ReplaceTrace(w.0, platform, swap, file);
      ReplaceFiles(w.0, platform, swap, file);
      UpdateThenRemove(s.files, swap, data, {swap});
      if r.0.files != w.0.files {
        UpdateThenRemove(s.files, swap, data, {file, swap});
        assert s.files - {file, swap} == s.files - {swap} - {file};
      }
    }
  }

  /** Removing a key just written forgets the write. */
  lemma UpdateThenRemove<K, V>(m: map<K, V>, k: K, v: V, ks: set<K>)
    requires k in ks
    ensures m[k := v] - ks == m - ks
  {
  }

  /** A successful write leaves the data in the tile's file inside the
      directory it created; no other file changes, and no swap file is left. */
  lemma WriteTileSucceeded(s: FsState, platform: Platform, base: Path, data: Bytes, c: Coord,
                           format: Format, layer: string, tag: SwapTag)
    requires WriteTileSpec(s, platform, base, data, c, format, layer, tag).1.None?
    ensures var s' := WriteTileSpec(s, platform, base, data, c, format, layer, tag).0;
      var file := MakeFilePath(base, c, layer, format.extension);
      && s'.files == (s.files - {SwapPath(file, tag)})[file := data]
      && s'.dirs == s.dirs + {MakeDirPath(base, c, layer)}
      && file == MakeDirPath(base, c, layer) + "/" + NatToString(c.row) + "." + format.extension
  {
    var file := MakeFilePath(base, c, layer, format.extension);
    WriteThroughSucceeded(s, platform, MakeDirPath(base, c, layer), file, SwapPath(file, tag), data);
    FileInDirectory(base, c, layer, format.extension);
  }

  /** A failed write leaves no swap file behind and creates no partial tile:
      the tile's file is as it was, or, only with the emulated replace, gone.
      The error raised again is that of opening the swap file when the open
      failed, and otherwise that of `os_replace`: the rename's error, chained
      in the emulation. */
  lemma WriteTileFailed(s: FsState, platform: Platform, base: Path, data: Bytes, c: Coord,
                        format: Format, layer: string, tag: SwapTag)
    requires WriteTileSpec(s, platform, base, data, c, format, layer, tag).1.Some?
    ensures var s' := WriteTileSpec(s, platform, base, data, c, format, layer, tag).0;
      var file := MakeFilePath(base, c, layer, format.extension);
      var swap := SwapPath(file, tag);
      && swap !in s'.files
      && (s'.files == s.files - {swap} || (platform == Emulated && s'.files == s.files - {swap} - {file}))
    ensures var err := WriteTileSpec(s, platform, base, data, c, format, layer, tag).1;
      var file := MakeFilePath(base, c, layer, format.extension);
      var swap := SwapPath(file, tag);
      && (NextFails(s) ==> err == Some(OpenError(swap)))
      && (!NextFails(s) ==>
            err == Some(if platform == Emulated then ReplaceError(RenameError(swap, file)) else RenameError(swap, file)))
  {
    var file := MakeFilePath(base, c, layer, format.extension);
    var swap := SwapPath(file, tag);
    assert |swap| > |file|;
    WriteThroughFailed(s, platform, MakeDirPath(base, c, layer), file, swap, data);
  }

  /** With no failure injected, `write_tile` always succeeds. */
  lemma WriteTileWithoutFaults(s: FsState, platform: Platform, base: Path, data: Bytes, c: Coord,
                               format: Format, layer: string, tag: SwapTag)
    requires s.faults == []
    ensures WriteTileSpec(s, platform, base, data, c, format, layer, tag).1.None?
  {
    var file := MakeFilePath(base, c, layer, format.extension);
    var swap := SwapPath(file, tag);
    var w := WriteStep(MakeDirsStep(s, MakeDirPath(base, c, layer)), swap, data);
    assert |swap| > |file|;
    ReplaceWithoutFaults(w.0, platform, swap, file);
  }

  /** `TileDirectory.read_tile`: the tile's file content, or `None` when
      the file is missing or cannot be opened. Files and directories are
      left as they are. */
  function ReadTileSpec(s: FsState, base: Path, c: Coord, format: Format, layer: string): (r: (FsState, Option<Bytes>))
    ensures var file := MakeFilePath(base, c, layer, format.extension);
      && (r.1.Some? <==> !NextFails(s) && file in s.files)
      && (r.1.Some? ==> r.1.value == s.files[file])
      && r.0.files == s.files && r.0.dirs == s.dirs
  {
    ReadStep(s, MakeFilePath(base, c, layer, format.extension))
  }

  /** Reading a tile back after writing it gives the bytes written, unless
      the read's own open fails; any other tile of that layer and format
      reads as before. */
  lemma WriteThenRead(s: FsState, platform: Platform, base: Path, data: Bytes, c: Coord,
                      format: Format, layer: string, tag: SwapTag, other: Coord)
    requires WriteTileSpec(s, platform, base, data, c, format, layer, tag).1.None?
    ensures var s' := WriteTileSpec(s, platform, base, data, c, format, layer, tag).0;
      && (!NextFails(s') ==> ReadTileSpec(s', base, c, format, layer).1 == Some(data))
      && (other != c ==> ReadTileSpec(s', base, other, format, layer).1
                         == ReadTileSpec(s.(faults := s'.faults), base, other, format, layer).1)
  {
    WriteTileSucceeded(s, platform, base, data, c, format, layer, tag);
    if other != c {
      var file := MakeFilePath(base, c, layer, format.extension);
      var otherFile := MakeFilePath(base, other, layer, format.extension);
      SwapIsNoTile(base, layer, format.extension, c, tag, other);
      if otherFile == file {
        MakeFilePathInjective(base, layer, other, format.extension, c, format.extension);
      }
    }
  }

  /** `TileDirectory.delete_tiles`, the loop unrolled: each file that
      exists when its coordinate is reached is removed and counted. */
  function DeleteSpec(s: FsState, base: Path, coords: seq<Coord>, format: Format, layer: string): (FsState, nat)
    decreases |coords|
  {
    if coords == [] then (s, 0)
    else
      var file := MakeFilePath(base, coords[0], layer, format.extension);
      if file in s.files then
        var r := DeleteSpec(RemoveStep(s, file).0, base, coords[1..], format, layer);
        (r.0, r.1 + 1)
      else DeleteSpec(s, base, coords[1..], format, layer)
  }

  /** The files of a list of tiles. */
  ghost function TileFiles(base: Path, coords: seq<Coord>, format: Format, layer: string): set<Path>
  {
    set c | c in coords :: MakeFilePath(base, c, layer, format.extension)
  }

  /** The distinct tiles of a list whose file exists. */
  ghost function StoredTiles(s: FsState, base: Path, coords: seq<Coord>, format: Format, layer: string): set<Coord>
  {
    set c | c in coords && MakeFilePath(base, c, layer, format.extension) in s.files
  }

  /** After `delete_tiles` none of the listed tiles' files exist and every
      other file is as it was. */
  lemma {:induction false} DeleteFiles(s: FsState, base: Path, coords: seq<Coord>, format: Format, layer: string)
    decreases |coords|
    ensures var r := DeleteSpec(s, base, coords, format, layer);
      && r.0.files == s.files - TileFiles(base, coords, format, layer)
      && r.0.dirs == s.dirs && r.0.faults == s.faults
  {
    if coords == [] {
      assert TileFiles(base, coords, format, layer) == {};
    } else {
      var c0, rest := coords[0], coords[1..];
      var file := MakeFilePath(base, c0, layer, format.extension);
      assert coords == [c0] + rest;
      assert TileFiles(base, coords, format, layer) == {file} + TileFiles(base, rest, format, layer);
      var others := TileFiles(base, rest, format, layer);
      if file in s.files {
        DeleteFiles(RemoveStep(s, file).0, base, rest, format, layer);
        MinusTwice(s.files, {file}, others);
      } else {
        DeleteFiles(s, base, rest, format, layer);
        MinusTwice(s.files, {file}, others);
        assert s.files - {file} == s.files;
      }
    }
  }

  lemma MinusTwice<K, V>(m: map<K, V>, a: set<K>, b: set<K>)
    ensures (m - a) - b == m - (a + b)
  {
  }

  /** Removing one tile's file changes which other tiles are stored only
      by that tile. */
  lemma StoredAfterRemove(s: FsState, base: Path, coords: seq<Coord>, format: Format, layer: string, c0: Coord)
    requires MakeFilePath(base, c0, layer, format.extension) in s.files
    ensures var s1 := RemoveStep(s, MakeFilePath(base, c0, layer, format.extension)).0;
      StoredTiles(s1, base, coords, format, layer) == StoredTiles(s, base, coords, format, layer) - {c0}
  {
    var file := MakeFilePath(base, c0, layer, format.extension);
    forall c | c in coords && c != c0
      ensures MakeFilePath(base, c, layer, format.extension) != file
    {
      if MakeFilePath(base, c, layer, format.extension) == file {
        MakeFilePathInjective(base, layer, c, format.extension, c0, format.extension);
      }
    }
  }

  /** The count `delete_tiles` returns is the number of distinct listed
      tiles that had a file, so a tile listed twice counts once. */
  lemma {:induction false} DeleteCount(s: FsState, base: Path, coords: seq<Coord>, format: Format, layer: string)
    decreases |coords|
    ensures DeleteSpec(s, base, coords, format, layer).1 == |StoredTiles(s, base, coords, format, layer)|
  {
    if coords == [] {
      assert StoredTiles(s, base, coords, format, layer) == {};
    } else {
      var c0, rest := coords[0], coords[1..];
      var file := MakeFilePath(base, c0, layer, format.extension);
      StoredTilesCons(s, base, coords, format, layer);
      if file in s.files {
        var s1 := RemoveStep(s, file).0;
        DeleteCount(s1, base, rest, format, layer);
        StoredAfterRemove(s, base, rest, format, layer, c0);
        var after := StoredTiles(s1, base, rest, format, layer);
        assert {c0} + StoredTiles(s, base, rest, format, layer) == {c0} + after;
      } else {
        DeleteCount(s, base, rest, format, layer);
      }
    }
  }

  /** The stored tiles of a list: its first tile if stored, and those of
      the rest. */
  lemma StoredTilesCons(s: FsState, base: Path, coords: seq<Coord>, format: Format, layer: string)
    requires coords != []
    ensures StoredTiles(s, base, coords, format, layer)
         == (if MakeFilePath(base, coords[0], layer, format.extension) in s.files then {coords[0]} else {})
            + StoredTiles(s, base, coords[1..], format, layer)
  {
    assert forall c :: c in coords <==> c == coords[0] || c in coords[1..];
  }

  /** A store of tiles in one directory of a filesystem. */
  class TileDirectory {
    const basePath: Path
    const fs: FileSystem

    /** The base directory exists afterwards. */
    constructor (basePath: Path, fs: FileSystem)
      modifies fs
      ensures this.basePath == basePath && this.fs == fs
      ensures fs.state == MakeDirsStep(old(fs.state), basePath)
    {
      this.basePath := basePath;
      this.fs := fs;
      fs.MakeDirs(basePath);
    }

    method WriteTile(data: Bytes, c: Coord, format: Format, layer: string, tag: SwapTag)
      returns (err: Option<OsError>)
      modifies fs
      ensures (fs.state, err) == WriteTileSpec(old(fs.state), fs.platform, basePath, data, c, format, layer, tag)
    {
      fs.MakeDirs(MakeDirPath(basePath, c, layer));
      var file := MakeFilePath(basePath, c, layer, format.extension);
      var swap := SwapPath(file, tag);
      var written := fs.WriteFile(swap, data);
      if !written {
        var removed := fs.Remove(swap);
        return Some(OpenError(swap));
      }
      err := OsReplace(fs, swap, file);
      if err.Some? {
        var removed := fs.Remove(swap);
      }
    }

    method ReadTile(c: Coord, format: Format, layer: string) returns (data: Option<Bytes>)
      modifies fs
      ensures (fs.state, data) == ReadTileSpec(old(fs.state), basePath, c, format, layer)
    {
      data := fs.ReadFile(MakeFilePath(basePath, c, layer, format.extension));
    }

    method DeleteTiles(coords: seq<Coord>, format: Format, layer: string) returns (count: nat)
      modifies fs
      ensures (fs.state, count) == DeleteSpec(old(fs.state), basePath, coords, format, layer)
    {
      ghost var goal := DeleteSpec(fs.state, basePath, coords, format, layer);
      count := 0;
      for i := 0 to |coords|
        invariant var r := DeleteSpec(fs.state, basePath, coords[i..], format, layer);
          r.0 == goal.0 && count + r.1 == goal.1
      {
        assert coords[i..][1..] == coords[i + 1..];
        var file := MakeFilePath(basePath, coords[i], layer, format.extension);
        if fs.IsFile(file) {
          var removed := fs.Remove(file);
          count := count + 1;
        }
      }
      assert coords[|coords|..] == [];
    }
  }

  // ---------------------------------------------------------------
  // Memory
  // ---------------------------------------------------------------

  /** What `Memory.write_tile` keeps: the data and the key it came with. */
  datatype StoredTile = StoredTile(data: Bytes, coord: Coord, format: Format, layer: string)

  /** A store holding only the last tile written. */
  class Memory {
    var slot: Option<StoredTile>

    constructor ()
      ensures slot == None
    {
      slot := None;
    }

    /** What a read returns, whatever tile is asked for. */
    function Contents(): (r: Option<Bytes>)
      reads this
      ensures r.None? <==> slot.None?
      ensures slot.Some? ==> r == Some(slot.value.data)
    {
      match slot
      case None => None
      case Some(t) => Some(t.data)
    }

    method WriteTile(data: Bytes, c: Coord, format: Format, layer: string)
      modifies this
      ensures slot == Some(StoredTile(data, c, format, layer))
      ensures Contents() == Some(data)
    {
      slot := Some(StoredTile(data, c, format, layer));
    }

    /** Ignores the key asked for: the last tile written is returned. */
    method ReadTile(c: Coord, format: Format, layer: string) returns (data: Option<Bytes>)
      ensures data == Contents()
    {
      if slot == None {
        return None;
      }
      data := Some(slot.value.data);
    }
  }

  // ---------------------------------------------------------------
  // write_tile_if_changed
  // ---------------------------------------------------------------

  /** The parts of tile comparison defined outside this model: the zip
      format of metatiles and `metatiles_are_equal`, which compares the
      archives' contents rather than their bytes. */
  datatype TileEquality = TileEquality(zipFormat: Format, metatilesAreEqual: (Bytes, Bytes) -> bool)

  /** `tiles_are_equal`: byte-wise, except for the zip format. */
  function TilesAreEqual(a: Bytes, b: Bytes, format: Option<Format>, eq: TileEquality): (r: bool)
    ensures format == Some(eq.zipFormat) ==> r == eq.metatilesAreEqual(a, b)
    ensures format != Some(eq.zipFormat) ==> (r <==> a == b)
  {
    if format.Some? && format.value == eq.zipFormat then eq.metatilesAreEqual(a, b) else a == b
  }

  /** The test `write_tile_if_changed` makes: write when nothing (or
      nothing but an empty string) was read, or when the tiles differ. */
  function ShouldWrite(existing: Option<Bytes>, data: Bytes, format: Format, eq: TileEquality): (w: bool)
    ensures existing.None? || existing == Some([]) ==> w
    ensures format != eq.zipFormat ==> (w <==> existing.None? || existing.value == [] || existing.value != data)
    ensures format == eq.zipFormat && existing.Some? && existing.value != [] ==>
              (w <==> !eq.metatilesAreEqual(existing.value, data))
  {
    existing.None? || existing.value == [] || !TilesAreEqual(existing.value, data, Some(format), eq)
  }

  /** `write_tile_if_changed` on a `TileDirectory`: the read, then the write
      when it is needed. `Success(b)` tells whether the tile was written;
      an error of the write is raised again. */
  function IfChangedSpec(s: FsState, platform: Platform, base: Path, data: Bytes, c: Coord,
                         format: Format, layer: string, eq: TileEquality, tag: SwapTag): (FsState, Result<bool, OsError>)
  {
    var rd := ReadTileSpec(s, base, c, format, layer);
    if !ShouldWrite(rd.1, data, format, eq) then (rd.0, Success(false))
    else
      var w := WriteTileSpec(rd.0, platform, base, data, c, format, layer, tag);
      (w.0, if w.1.None? then Success(true) else Failure(w.1.value))
  }

  /** Returning `False` leaves every file and directory as it was; returning
      `True` means the tile's file now holds the new data, so reading it back
      gives that data unless the read itself fails. */
  lemma IfChangedOutcome(s: FsState, platform: Platform, base: Path, data: Bytes, c: Coord,
                         format: Format, layer: string, eq: TileEquality, tag: SwapTag)
    ensures var r := IfChangedSpec(s, platform, base, data, c, format, layer, eq, tag);
      && (r.1 == Success(false) ==> r.0.files == s.files && r.0.dirs == s.dirs)
      && (r.1 == Success(true) ==> MakeFilePath(base, c, layer, format.extension) in r.0.files
                                   && r.0.files[MakeFilePath(base, c, layer, format.extension)] == data)
      && (r.1 == Success(true) && !NextFails(r.0) ==> ReadTileSpec(r.0, base, c, format, layer).1 == Some(data))
  {
    var rd := ReadTileSpec(s, base, c, format, layer);
    if ShouldWrite(rd.1, data, format, eq) {
      var w := WriteTileSpec(rd.0, platform, base, data, c, format, layer, tag);
      if w.1.None? {
        WriteTileSucceeded(rd.0, platform, base, data, c, format, layer, tag);
      }
    }
  }

  /** For a byte-compared format, once a non-empty tile is written, asking
      to write the same data again writes nothing, unless the read fails. */
  lemma IfChangedIdempotent(s: FsState, platform: Platform, base: Path, data: Bytes, c: Coord,
                            format: Format, layer: string, eq: TileEquality, tag: SwapTag, tag': SwapTag)
    requires format != eq.zipFormat && data != []
    requires IfChangedSpec(s, platform, base, data, c, format, layer, eq, tag).1 == Success(true)
    requires !NextFails(IfChangedSpec(s, platform, base, data, c, format, layer, eq, tag).0)
    ensures var s' := IfChangedSpec(s, platform, base, data, c, format, layer, eq, tag).0;
      IfChangedSpec(s', platform, base, data, c, format, layer, eq, tag').1 == Success(false)
  {
    IfChangedOutcome(s, platform, base, data, c, format, layer, eq, tag);
  }

  /** The two stores `write_tile_if_changed` is used with. */
  datatype Store = Directory(dir: TileDirectory) | InMemory(mem: Memory)

  function Footprint(store: Store): set<object>
  {
    match store
    case Directory(d) => {d.fs}
    case InMemory(m) => {m}
  }

  /** `write_tile_if_changed`. On a directory it does what `IfChangedSpec`
      says; on a memory store it compares against the last tile written,
      whatever its key, and leaves the store untouched when it returns
      `False`. */
  method WriteTileIfChanged(store: Store, data: Bytes, c: Coord, format: Format, layer: string,
                            eq: TileEquality, tag: SwapTag)
    returns (r: Result<bool, OsError>)
    modifies Footprint(store)
    ensures store.Directory? ==>
              (store.dir.fs.state, r)
              == IfChangedSpec(old(store.dir.fs.state), store.dir.fs.platform, store.dir.basePath,
                               data, c, format, layer, eq, tag)
    ensures store.InMemory? ==>
              && r == Success(ShouldWrite(old(store.mem.Contents()), data, format, eq))
              && (r == Success(true) ==> store.mem.slot == Some(StoredTile(data, c, format, layer)))
              && (r == Success(false) ==> store.mem.slot == old(store.mem.slot))
  {
    match store
    case Directory(d) =>
      var existing := d.ReadTile(c, format, layer);
      if ShouldWrite(existing, data, format, eq) {
        var err := d.WriteTile(data, c, format, layer, tag);
        r := if err.None? then Success(true) else Failure(err.value);
      } else {
        r := Success(false);
      }
    case InMemory(m) =>
      var existing := m.ReadTile(c, format, layer);
      if ShouldWrite(existing, data, format, eq) {
        m.WriteTile(data, c, format, layer);
        r := Success(true);
      } else {
        r := Success(false);
      }
  }
}
