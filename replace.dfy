/** `os_replace` (tilequeue/store.py): move a file over another one. Modern
    Python and POSIX do it with one atomic call; elsewhere the emulation
    tries one rename, then up to five rounds of "remove the destination,
    rename again", and raises a chained error when every attempt failed. */
module Replace {
  import opened Common
  import opened TilePaths
  import opened LocalFs

  datatype OsError =
    | RenameError(src: Path, dst: Path)
    | OpenError(path: Path)
    | ReplaceError(cause: OsError)

  /** Rounds of remove-and-rename after the first failed rename. */
  const ReplaceRetries: nat := 5

  /** The retry loop of the emulation, `rounds` rounds still to go. */
  function RetryRounds(s: FsState, src: Path, dst: Path, rounds: nat): (FsState, Option<OsError>)
    decreases rounds
  {
    if rounds == 0 then (s, Some(ReplaceError(RenameError(src, dst))))
    else
      var s1 := RemoveStep(s, dst).0;
      var r := RenameStep(s1, Emulated, src, dst);
      if r.1 then (r.0, None) else RetryRounds(r.0, src, dst, rounds - 1)
  }

  /** The effect and outcome of `os_replace(src, dst)`: `None` when it
      returns, the error when it raises. */
  function ReplaceSpec(s: FsState, platform: Platform, src: Path, dst: Path): (FsState, Option<OsError>)
  {
    var r := RenameStep(s, platform, src, dst);
    if r.1 then (r.0, None)
    else if platform == Emulated then RetryRounds(r.0, src, dst, ReplaceRetries)
    else (r.0, Some(RenameError(src, dst)))
  }

  /** `u` is a run of retry rounds: pairs of a remove of `dst` and a rename
      of `src` to `dst`, every rename but the last one failed. */
  ghost predicate RetryCalls(u: seq<Call>, src: Path, dst: Path)
    decreases |u|
  {
    u == [] ||
    (&& |u| >= 2
     && u[0] == Remove(dst, u[0].ok) && u[1] == Rename(src, dst, u[1].ok)
     && (|u| > 2 ==> !u[1].ok)
     && RetryCalls(u[2..], src, dst))
  }

  /** The retry rounds only append calls to the trace. */
  lemma {:induction false} RetryRoundsExtends(s: FsState, src: Path, dst: Path, rounds: nat)
    decreases rounds
    ensures var t := RetryRounds(s, src, dst, rounds).0.trace;
      |t| >= |s.trace| && t == s.trace + t[|s.trace|..]
  {
    if rounds > 0 {
      var s1 := RemoveStep(s, dst).0;
      var s2 := RenameStep(s1, Emulated, src, dst);
      if !s2.1 {
        RetryRoundsExtends(s2.0, src, dst, rounds - 1);
      }
    }
  }

  /** A round that fails passes on a trace longer by its remove-and-rename
      pair, so the calls after `s.trace` are that pair and the calls of the
      remaining rounds. */
  lemma RetryRoundsStep(s: FsState, src: Path, dst: Path, rounds: nat)
    requires rounds > 0
    ensures var s1 := RemoveStep(s, dst);
      var s2 := RenameStep(s1.0, Emulated, src, dst);
      var t := RetryRounds(s, src, dst, rounds).0.trace;
      !s2.1 ==>
        && |t| >= |s2.0.trace| == |s.trace| + 2
        && t[|s.trace|..] == [Remove(dst, s1.1), Rename(src, dst, s2.1)] + t[|s2.0.trace|..]
  {
    var s1 := RemoveStep(s, dst);
    var s2 := RenameStep(s1.0, Emulated, src, dst);
    if !s2.1 {
      RetryRoundsExtends(s2.0, src, dst, rounds - 1);
      var pair := [Remove(dst, s1.1), Rename(src, dst, s2.1)];
      var t := RetryRounds(s2.0, src, dst, rounds - 1).0.trace;
      assert s2.0.trace == s.trace + pair;
      assert t == s.trace + (pair + t[|s2.0.trace|..]);
    }
  }

  /** The retry rounds add at most two calls per round; they raise exactly
      when the last call failed, after all the rounds. */
  lemma {:induction false} RetryRoundsOutcome(s: FsState, src: Path, dst: Path, rounds: nat)
    decreases rounds
    ensures var r := RetryRounds(s, src, dst, rounds);
      && |r.0.trace| >= |s.trace|
      && var u := r.0.trace[|s.trace|..];
      && |u| <= 2 * rounds
      && (r.1.None? <==> u != [] && u[|u| - 1].ok)
      && (r.1.Some? ==> |u| == 2 * rounds && r.1 == Some(ReplaceError(RenameError(src, dst))))
  {
    if rounds > 0 {
      var s1 := RemoveStep(s, dst);
      var s2 := RenameStep(s1.0, Emulated, src, dst);
      RetryRoundsStep(s, src, dst, rounds);
      if !s2.1 {
        RetryRoundsOutcome(s2.0, src, dst, rounds - 1);
      }
    }
  }

  /** The calls of the retry rounds, those that follow `s.trace`, are
      remove-and-rename pairs. */
  lemma {:induction false} RetryRoundsCalls(s: FsState, src: Path, dst: Path, rounds: nat)
    decreases rounds
    ensures var r := RetryRounds(s, src, dst, rounds);
      |r.0.trace| >= |s.trace| && RetryCalls(r.0.trace[|s.trace|..], src, dst)
  {
    if rounds > 0 {
      var s1 := RemoveStep(s, dst);
      var s2 := RenameStep(s1.0, Emulated, src, dst);
      var pair := [Remove(dst, s1.1), Rename(src, dst, s2.1)];
      if s2.1 {
        assert RetryRounds(s, src, dst, rounds).0.trace[|s.trace|..] == pair;
        assert pair[2..] == [];
      } else {
        RetryRoundsStep(s, src, dst, rounds);
        RetryRoundsOutcome(s2.0, src, dst, rounds - 1);
        RetryRoundsCalls(s2.0, src, dst, rounds - 1);
        var t := RetryRounds(s2.0, src, dst, rounds - 1).0.trace;
        RetryCallsCons(pair, t[|s2.0.trace|..], src, dst);
      }
    } else {
      assert RetryRounds(s, src, dst, rounds).0.trace[|s.trace|..] == [];
    }
  }

  lemma RetryCallsCons(pair: seq<Call>, rest: seq<Call>, src: Path, dst: Path)
    requires |pair| == 2 && pair[0] == Remove(dst, pair[0].ok) && pair[1] == Rename(src, dst, pair[1].ok)
    requires rest != [] ==> !pair[1].ok
    requires RetryCalls(rest, src, dst)
    ensures RetryCalls(pair + rest, src, dst)
  {
    assert (pair + rest)[2..] == rest;
  }

  lemma {:induction false} RetryRoundsFiles(s: FsState, src: Path, dst: Path, rounds: nat)
    decreases rounds
    ensures var r := RetryRounds(s, src, dst, rounds);
      && r.0.dirs == s.dirs
      && (r.1.None? ==> src in s.files && src != dst && r.0.files == (s.files - {src})[dst := s.files[src]])
      && (r.1.Some? ==> r.0.files == if rounds == 0 then s.files else s.files - {dst})
  {
    if rounds > 0 {
      var s1 := RemoveStep(s, dst).0;
      var s2 := RenameStep(s1, Emulated, src, dst);
      if s2.1 {
        assert s2.0.files == (s.files - {src})[dst := s.files[src]];
      } else {
        RetryRoundsFiles(s2.0, src, dst, rounds - 1);
        var r := RetryRounds(s2.0, src, dst, rounds - 1);
        if r.1.None? {
          assert r.0.files == (s.files - {src})[dst := s.files[src]];
        }
      }
    }
  }

  /** The calls of one `os_replace`, those that follow `s.trace`: a single
      rename with modern Python or on POSIX; with the emulation, a rename
      followed by retry rounds, stopping at the first rename that succeeds,
      at most eleven calls (six renames). It raises exactly when its last
      rename failed, and then, in the emulation, after all eleven calls and
      with a chained error whose cause is that rename's error. */
  lemma ReplaceTrace(s: FsState, platform: Platform, src: Path, dst: Path)
    ensures var r := ReplaceSpec(s, platform, src, dst);
      && |r.0.trace| > |s.trace| && r.0.trace[..|s.trace|] == s.trace
      && var t := r.0.trace[|s.trace|..];
      && t[0] == Rename(src, dst, t[0].ok) && (|t| > 1 ==> !t[0].ok) && RetryCalls(t[1..], src, dst)
      && (r.1.None? <==> t[|t| - 1].ok)
      && (platform != Emulated ==> t == [Rename(src, dst, r.1.None?)])
      && (platform != Emulated && r.1.Some? ==> r.1 == Some(RenameError(src, dst)))
      && (platform == Emulated ==> |t| <= 2 * ReplaceRetries + 1)
      && (platform == Emulated && r.1.Some? ==>
            |t| == 2 * ReplaceRetries + 1 && r.1 == Some(ReplaceError(RenameError(src, dst))))
  {
    var first := RenameStep(s, platform, src, dst);
    ReplaceCalls(s, platform, src, dst);
    if !first.1 && platform == Emulated {
      RetryRoundsOutcome(first.0, src, dst, ReplaceRetries);
      RetryRoundsCalls(first.0, src, dst, ReplaceRetries);
      var tr := ReplaceSpec(s, platform, src, dst).0.trace;
      var rest := tr[|first.0.trace|..];
      assert ([Rename(src, dst, false)] + rest)[1..] == rest;
    }
  }

  /** The calls of `os_replace` after `s.trace`: the first rename alone, or
      (in the emulation, after that rename failed) followed by the calls of
      the retry rounds. */
  lemma ReplaceCalls(s: FsState, platform: Platform, src: Path, dst: Path)
    ensures var first := RenameStep(s, platform, src, dst);
      var tr := ReplaceSpec(s, platform, src, dst).0.trace;
      && |tr| > |s.trace| && tr[..|s.trace|] == s.trace
      && |first.0.trace| == |s.trace| + 1 && |tr| >= |first.0.trace|
      && (first.1 || platform != Emulated ==> tr[|s.trace|..] == [Rename(src, dst, first.1)])
      && (!first.1 && platform == Emulated ==>
            tr[|s.trace|..] == [Rename(src, dst, false)] + tr[|first.0.trace|..])
  {
    var first := RenameStep(s, platform, src, dst);
    var head := [Rename(src, dst, first.1)];
    assert first.0.trace == s.trace + head;
    if !first.1 && platform == Emulated {
      RetryRoundsExtends(first.0, src, dst, ReplaceRetries);
      var tr := RetryRounds(first.0, src, dst, ReplaceRetries).0.trace;
      var rest := tr[|first.0.trace|..];
      assert tr == s.trace + (head + rest);
    }
  }

  /** What `os_replace` does to the files: on success `dst` holds what `src`
      held and `src` is gone; on failure nothing moved, and at most the
      destination was removed (only by the emulation). Nothing else changes. */
  lemma ReplaceFiles(s: FsState, platform: Platform, src: Path, dst: Path)
    ensures var r := ReplaceSpec(s, platform, src, dst);
      && r.0.dirs == s.dirs
      && (r.1.None? ==> src in s.files && r.0.files == (s.files - {src})[dst := s.files[src]])
      && (r.1.Some? ==> r.0.files == s.files || (platform == Emulated && r.0.files == s.files - {dst}))
  {
    var first := RenameStep(s, platform, src, dst);
    if !first.1 && platform == Emulated {
      RetryRoundsFiles(first.0, src, dst, ReplaceRetries);
    }
  }

  /** With no failure injected, even the emulation always succeeds once the
      source exists: the first retry removes the destination that blocked
      the rename. */
  lemma ReplaceWithoutFaults(s: FsState, platform: Platform, src: Path, dst: Path)
    requires s.faults == [] && src in s.files && src != dst
    ensures ReplaceSpec(s, platform, src, dst).1.None?
  {
    var first := RenameStep(s, platform, src, dst);
    if !first.1 {
      assert platform == Emulated;
      var s1 := RemoveStep(first.0, dst).0;
      assert src in s1.files && dst !in s1.files && s1.faults == [];
    }
  }

  /** `os_replace`, the emulation's loop written as in the source. */
  method OsReplace(fs: FileSystem, src: Path, dst: Path) returns (err: Option<OsError>)
    modifies fs
    ensures (fs.state, err) == ReplaceSpec(old(fs.state), fs.platform, src, dst)
  {
    var ok := fs.Rename(src, dst);
    if ok {
      return None;
    }
    if fs.platform != Emulated {
      return Some(RenameError(src, dst));
    }
    ghost var goal := RetryRounds(fs.state, src, dst, ReplaceRetries);
    err := Some(RenameError(src, dst));
    for i := 0 to ReplaceRetries
      invariant RetryRounds(fs.state, src, dst, ReplaceRetries - i) == goal
      invariant err == Some(RenameError(src, dst))
    {
      var removed := fs.Remove(dst);
      ok := fs.Rename(src, dst);
      if ok {
        err := None;
        break;
      }
      err := Some(RenameError(src, dst));
    }
    if err.Some? {
      err := Some(ReplaceError(err.value));
    }
  }
}
