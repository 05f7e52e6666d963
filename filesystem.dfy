/** The local filesystem that `TileDirectory` and `os_replace` work on.
    It is environment, not part of tilequeue: files are a map from path
    to bytes, directories a set of paths, and a failure oracle decides
    whether each `open` or `rename` fails (one entry per call, `true` =
    fails; past its end nothing fails). Every call is logged in `trace`. */
module LocalFs {
  import opened Common
  import opened TilePaths

  /** Which branch of `os_replace` runs: Python with `os.replace`, POSIX
      `os.rename` (atomic, overwrites), or the emulation for systems whose
      rename refuses an existing destination. */
  datatype Platform = HasReplace | Posix | Emulated

  datatype Call =
    | Open(path: Path, forWrite: bool, ok: bool)
    | Rename(src: Path, dst: Path, ok: bool)
    | Remove(path: Path, ok: bool)

  datatype FsState = FsState(files: map<Path, Bytes>, dirs: set<Path>, faults: seq<bool>, trace: seq<Call>)

  function NextFails(s: FsState): bool
  {
    |s.faults| > 0 && s.faults[0]
  }

  function Consume(s: FsState): FsState
  {
    s.(faults := if s.faults == [] then [] else s.faults[1..])
  }

  /** `os.rename(src, dst)` (or `os.replace`): fails when the oracle says so,
      when `src` is missing, or, on `Emulated`, when `dst` exists. */
  function RenameStep(s: FsState, platform: Platform, src: Path, dst: Path): (FsState, bool)
  {
    var ok := !NextFails(s) && src in s.files && !(platform == Emulated && dst in s.files);
    var s1 := Consume(s).(trace := s.trace + [Rename(src, dst, ok)]);
    if ok then (s1.(files := (s.files - {src})[dst := s.files[src]]), true) else (s1, false)
  }

  /** `os.remove(p)`: fails only when there is no such file. */
  function RemoveStep(s: FsState, p: Path): (FsState, bool)
  {
    var ok := p in s.files;
    (s.(files := s.files - {p}, trace := s.trace + [Remove(p, ok)]), ok)
  }

  /** `open(p, 'w')` followed by `write(data)`. */
  function WriteStep(s: FsState, p: Path, data: Bytes): (FsState, bool)
  {
    var ok := !NextFails(s);
    var s1 := Consume(s).(trace := s.trace + [Open(p, true, ok)]);
    if ok then (s1.(files := s.files[p := data]), true) else (s1, false)
  }

  /** `open(p, 'r')` followed by `read()`; `None` stands for the IOError. */
  function ReadStep(s: FsState, p: Path): (FsState, Option<Bytes>)
  {
    var ok := !NextFails(s) && p in s.files;
    var s1 := Consume(s).(trace := s.trace + [Open(p, false, ok)]);
    (s1, if ok then Some(s.files[p]) else None)
  }

  /** `os.makedirs(p)` whose "already exists" error is ignored: afterwards
      the directory exists. */
  function MakeDirsStep(s: FsState, p: Path): FsState
  {
    s.(dirs := s.dirs + {p})
  }

  // ---------------------------------------------------------------
  // Text mode on Windows
  // ---------------------------------------------------------------

  const LF: byte := 0x0A
  const CR: byte := 0x0D
  /** Ctrl-Z, which the Windows C runtime reads as the end of a text file. */
  const CtrlZ: byte := 0x1A

  /** What `open(p, 'w').write(data)` puts in the file on Windows: every
      line feed becomes carriage return, line feed. */
  function TextModeWrite(data: Bytes): (f: Bytes)
    ensures |f| >= |data|
    ensures f == [] <==> data == []
    ensures f != [] ==> f[0] == (if data[0] == LF then CR else data[0])
  {
    if data == [] then []
    else (if data[0] == LF then [CR, LF] else [data[0]]) + TextModeWrite(data[1..])
  }

  /** What `open(p, 'r').read()` returns on Windows for file content `f`:
      carriage return, line feed becomes line feed, and reading stops at the
      first Ctrl-Z. */
  function TextModeRead(f: Bytes): (data: Bytes)
    ensures |data| <= |f|
  {
    if f == [] || f[0] == CtrlZ then []
    else if f[0] == CR && |f| >= 2 && f[1] == LF then [LF] + TextModeRead(f[2..])
    else [f[0]] + TextModeRead(f[1..])
  }

  /** `data` up to its first Ctrl-Z. */
  function UpToCtrlZ(data: Bytes): (r: Bytes)
    ensures |r| <= |data| && r == data[..|r|]
    ensures CtrlZ !in r
    ensures |r| < |data| ==> data[|r|] == CtrlZ
  {
    if data == [] || data[0] == CtrlZ then [] else [data[0]] + UpToCtrlZ(data[1..])
  }

  /** Reading back a file written in text mode on Windows gives the data up
      to its first Ctrl-Z byte, not the data written. */
  lemma {:induction false} TextModeRoundTrip(data: Bytes)
    ensures TextModeRead(TextModeWrite(data)) == UpToCtrlZ(data)
  {
    if data != [] && data[0] != CtrlZ {
      var rest := TextModeWrite(data[1..]);
      TextModeRoundTrip(data[1..]);
      if data[0] == LF {
        assert TextModeWrite(data) == [CR, LF] + rest;
        assert ([CR, LF] + rest)[2..] == rest;
      } else {
        var f := [data[0]] + rest;
        assert TextModeWrite(data) == f && f[1..] == rest;
        assert data[0] == CR ==> |f| < 2 || f[1] != LF;
      }
    }
  }

  /** Two tiles on which text mode fails: a tile holding a Ctrl-Z reads back
      cut short, and a tile holding a line feed is stored with an extra
      byte. In binary mode, as `WriteStep` and `ReadStep` model it, both
      round-trip unchanged. */
  lemma TextModeCorruptsTiles()
    ensures TextModeRead(TextModeWrite([CtrlZ, 0x01])) == []
    ensures TextModeWrite([LF]) == [CR, LF]
  {
    TextModeRoundTrip([CtrlZ, 0x01]);
  }

  /** The filesystem as an object the store's methods update in place. */
  class FileSystem {
    const platform: Platform
    var state: FsState

    constructor (platform: Platform, initial: FsState)
      ensures this.platform == platform && state == initial
    {
      this.platform := platform;
      state := initial;
    }

    predicate IsFile(p: Path)
      reads this
    {
      p in state.files
    }

    method Rename(src: Path, dst: Path) returns (ok: bool)
      modifies this
      ensures (state, ok) == RenameStep(old(state), platform, src, dst)
    {
      var r := RenameStep(state, platform, src, dst);
      state, ok := r.0, r.1;
    }

    method Remove(p: Path) returns (ok: bool)
      modifies this
      ensures (state, ok) == RemoveStep(old(state), p)
    {
      var r := RemoveStep(state, p);
      state, ok := r.0, r.1;
    }

    method WriteFile(p: Path, data: Bytes) returns (ok: bool)
      modifies this
      ensures (state, ok) == WriteStep(old(state), p, data)
    {
      var r := WriteStep(state, p, data);
      state, ok := r.0, r.1;
    }

    method ReadFile(p: Path) returns (data: Option<Bytes>)
      modifies this
      ensures (state, data) == ReadStep(old(state), p)
    {
      var r := ReadStep(state, p);
      state, data := r.0, r.1;
    }

    method MakeDirs(p: Path)
      modifies this
      ensures state == MakeDirsStep(old(state), p)
    {
      state := MakeDirsStep(state, p);
    }
  }
}
