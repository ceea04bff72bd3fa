/**
 Writing a file through a temporary one (tools/src/daemon_config.c, `atomic_write_file`), with every
 disk state that a crash could leave behind.
 */
module AtomicWrite {
  import opened Wrappers

  type Files = map<string, string>

  function Look(files: Files, path: string): Option<string> {
    if path in files then Some(files[path]) else None
  }

  /** The files as running programs see them, and the names of those whose data has not been flushed. */
  datatype Disk = Disk(files: Files, dirty: set<string>)

  /** A crash can leave `now`: what was flushed is as it was, the rest holds anything or is gone. */
  ghost predicate Survives(d: Disk, now: Files) {
    forall q :: q !in d.dirty ==> Look(now, q) == Look(d.files, q)
  }

  /** How the system calls of one atomic write turn out.  `written` bounds what write() accepts. */
  datatype Luck = Luck(open: bool, unlink: bool, reopen: bool, written: nat, sync: bool, close: bool,
                       rename: bool, cleanup: bool)

  const PATH_MAX: nat := 4096

  function TempOf(path: string): string { path + ".tmp" }

  predicate IsTemp(path: string) { |path| >= 4 && path[|path| - 4..] == ".tmp" }

  /** Only temporary files may have unflushed data. */
  ghost predicate Flushed(d: Disk) { forall q :: q in d.dirty ==> IsTemp(q) }

  /** The write goes through: the temporary file could be made, took the whole text, and was renamed. */
  predicate Succeeds(files: Files, path: string, text: string, luck: Luck) {
    && |TempOf(path)| < PATH_MAX
    && (if TempOf(path) in files then luck.unlink && luck.reopen else luck.open)
    && luck.written >= |text| && luck.sync && luck.close && luck.rename
  }

  /** Of the files that were flushed, `now` differs from `before` at most in the temporary file and, at
      `path`, by holding all of `text`. */
  ghost predicate OldOrNew(before: Disk, now: Files, path: string, text: string) {
    && (path in before.dirty || Look(now, path) == Look(before.files, path) || Look(now, path) == Some(text))
    && forall q :: q != path && q != TempOf(path) && q !in before.dirty ==> Look(now, q) == Look(before.files, q)
  }

  /** Whatever a crash in state d leaves. */
  ghost predicate CrashLeaves(before: Disk, d: Disk, path: string, text: string) {
    forall now :: Survives(d, now) ==> OldOrNew(before, now, path, text)
  }

  /** `now` differs from `before` at most in the file tmp. */
  ghost predicate OnlyTemp(before: Files, now: Files, tmp: string) {
    forall q :: q != tmp ==> Look(now, q) == Look(before, q)
  }

  ghost predicate TempWritten(before: Disk, d: Disk, tmp: string) {
    OnlyTemp(before.files, d.files, tmp) && d.dirty <= before.dirty + {tmp}
  }

  /** Since then, when the disk was as before, the history has grown by states that differ in the temporary file
      alone. */
  ghost predicate OnlyTempSince(then_: seq<Disk>, before: Disk, history: seq<Disk>, now: Disk, tmp: string) {
    && |then_| <= |history| && history[..|then_|] == then_ && TempWritten(before, now, tmp)
    && forall i :: |then_| <= i < |history| ==> TempWritten(before, history[i], tmp)
  }

  lemma OnlyTempTrans(a: seq<Disk>, x: Disk, b: seq<Disk>, y: Disk, c: seq<Disk>, z: Disk, tmp: string)
    requires OnlyTempSince(a, x, b, y, tmp) && OnlyTempSince(b, y, c, z, tmp)
    ensures OnlyTempSince(a, x, c, z, tmp)
  {
    forall i | |a| <= i < |c| ensures TempWritten(x, c[i], tmp) {
      if i < |b| {
        assert c[i] == b[i];
      }
    }
  }

  lemma OneMore(a: seq<Disk>, x: Disk, b: seq<Disk>, y: Disk, z: Disk, tmp: string)
    requires OnlyTempSince(a, x, b, y, tmp) && TempWritten(y, z, tmp)
    ensures OnlyTempSince(a, x, b + [z], z, tmp)
  {
  }

  lemma TempHarmless(before: Disk, d: Disk, path: string, text: string)
    requires TempWritten(before, d, TempOf(path))
    ensures CrashLeaves(before, d, path, text)
  {
    assert |TempOf(path)| > |path|;
  }

  /** Once the flushed temporary file has taken its place, a crash leaves the new text. */
  lemma RenamedHolds(before: Disk, d: Disk, path: string, text: string)
    requires Look(d.files, path) == Some(text) && path !in d.dirty && d.dirty <= before.dirty
    requires forall q :: q != path && q != TempOf(path) ==> Look(d.files, q) == Look(before.files, q)
    ensures CrashLeaves(before, d, path, text)
  {
  }

  class FileSystem {
    var files: Files
    ghost var dirty: set<string>
    /** Every state the disk has been in, oldest first. */
    ghost var history: seq<Disk>

    constructor (files: Files)
      ensures this.files == files && dirty == {} && history == [Disk(files, {})]
    {
      this.files, dirty := files, {};
      history := [Disk(files, {})];
    }

    ghost function State(): Disk
      reads this
    {
      Disk(files, dirty)
    }

    method Set(path: string, text: string)
      modifies this
      ensures files == old(files)[path := text] && dirty == old(dirty) + {path} && history == old(history) + [State()]
    {
      files, dirty := files[path := text], dirty + {path};
      history := history + [State()];
    }

    method Sync(path: string)
      modifies this
      ensures files == old(files) && dirty == old(dirty) - {path} && history == old(history) + [State()]
    {
      dirty := dirty - {path};
      history := history + [State()];
    }

    method Unlink(path: string)
      modifies this
      ensures files == old(files) - {path} && dirty == old(dirty) - {path} && history == old(history) + [State()]
    {
      files, dirty := files - {path}, dirty - {path};
      history := history + [State()];
    }

    method Rename(from: string, to: string)
      requires from in files && from != to
      modifies this
      ensures files == old(files)[to := old(files)[from]] - {from} && history == old(history) + [State()]
      ensures dirty == old(dirty) - {from, to} + if from in old(dirty) then {to} else {}
    {
      files := files[to := files[from]] - {from};
      dirty := dirty - {from, to} + if from in dirty then {to} else {};
      history := history + [State()];
    }

    /** Since then_, at most tmp has been written to. */
    ghost predicate Since(then_: seq<Disk>, before: Disk, tmp: string)
      reads this
    {
      OnlyTempSince(then_, before, history, State(), tmp)
    }

    /** Whenever the power fails from now on, the file at `path` is wholly old or holds all of `text`. */
    ghost predicate CrashSafe(then_: seq<Disk>, before: Disk, path: string, text: string)
      reads this
    {
      && |then_| <= |history| && history[..|then_|] == then_
      && forall i :: |then_| <= i < |history| ==> CrashLeaves(before, history[i], path, text)
    }

    /** Up to n bytes reach the file, one after the other. */
    method Append(path: string, text: string, n: nat)
      requires n <= |text| && path in files && files[path] == ""
      modifies this
      ensures files == old(files)[path := text[..n]]
      ensures Since(old(history), old(State()), path)
    {
      var k := 0;
      assert text[..0] == "";
      while k < n
        invariant 0 <= k <= n && files == old(files)[path := text[..k]]
        invariant Since(old(history), old(State()), path)
      {
        k := k + 1;
        Set(path, text[..k]);
      }
    }

    /** Makes the temporary file, removing a stale one first. */
    method OpenTemp(path: string, luck: Luck) returns (ok: bool)
      modifies this
      ensures ok <==> if path in old(files) then luck.unlink && luck.reopen else luck.open
      ensures ok ==> files == old(files)[path := ""]
      ensures !ok ==> files == if luck.unlink then old(files) - {path} else old(files)
      ensures Since(old(history), old(State()), path)
    {
      if path in files {
        if !luck.unlink {
          return false;
        }
        Unlink(path);
        if !luck.reopen {
          return false;
        }
      } else if !luck.open {
        return false;
      }
      Set(path, "");
      return true;
    }

    /** atomic_write_file. */
    method AtomicWrite(path: string, text: string, luck: Luck) returns (rc: int)
      modifies this
      ensures rc == if Succeeds(old(files), path, text, luck) then 0 else -1
      ensures var made := if path + ".tmp" in old(files) then luck.unlink && luck.reopen else luck.open;
              && (rc == 0 <==> |path| + 5 <= 4096 && made && luck.written >= |text| && luck.sync && luck.close
                               && luck.rename)
              && (rc < 0 && luck.cleanup && made && |path| + 5 <= 4096 ==> files == old(files) - {path + ".tmp"})
      ensures rc == 0 ==> files == old(files)[path := text] - {path + ".tmp"} && dirty <= old(dirty)
      ensures rc < 0 ==> TempWritten(old(State()), State(), TempOf(path))
      ensures CrashSafe(old(history), old(State()), path, text)
    {
      var tmp := TempOf(path);
      assert |tmp| > |path|;
      if |tmp| >= PATH_MAX {
        return -1;
      }
      rc := WriteTemp(tmp, text, luck);
      SinceIsSafe(old(history), old(State()), path, text);
      if rc == 0 && !luck.rename {
        if luck.cleanup {
          Unlink(tmp);
          TempHarmless(old(State()), State(), path, text);
        }
        return -1;
      }
      if rc == 0 {
        Rename(tmp, path);
        RenamedHolds(old(State()), State(), path, text);
      }
    }

    lemma SinceIsSafe(then_: seq<Disk>, before: Disk, path: string, text: string)
      requires Since(then_, before, TempOf(path))
      ensures CrashSafe(then_, before, path, text)
    {
      forall i | |then_| <= i < |history| ensures CrashLeaves(before, history[i], path, text) {
        TempHarmless(before, history[i], path, text);
      }
    }

    /** Everything up to the rename. */
    method WriteTemp(tmp: string, text: string, luck: Luck) returns (rc: int)
      modifies this
      ensures rc == if (if tmp in old(files) then luck.unlink && luck.reopen else luck.open)
                       && luck.written >= |text| && luck.sync && luck.close
                    then 0 else -1
      ensures rc == 0 ==> files == old(files)[tmp := text] && tmp !in dirty
      ensures rc < 0 && luck.cleanup && (if tmp in old(files) then luck.unlink && luck.reopen else luck.open) ==>
                files == old(files) - {tmp}
      ensures Since(old(history), old(State()), tmp)
    {
      hide OnlyTempSince;
      ghost var a, x := history, State();
      var ok := OpenTemp(tmp, luck);
      if !ok {
        return -1;
      }
      var n := if luck.written < |text| then luck.written else |text|;
      ghost var b, y := history, State();
      Append(tmp, text, n);
      OnlyTempTrans(a, x, b, y, history, State(), tmp);
      assert text[..|text|] == text;
      ok := n == |text| && luck.sync;
      if ok {
        b, y := history, State();
        Sync(tmp);
        assert TempWritten(y, State(), tmp);
        OneMore(a, x, b, y, State(), tmp);
      }
      if !ok || !luck.close {
        if luck.cleanup {
          b, y := history, State();
          Unlink(tmp);
          assert TempWritten(y, State(), tmp);
          OneMore(a, x, b, y, State(), tmp);
        }
        return -1;
      }
      return 0;
    }
  }
}
