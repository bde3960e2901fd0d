/** The rotating file logger: which old `.log` files `init` removes, the
    level filter, and the level, path and file cells it keeps in `State`s.

    The process-wide `LOGGER` singleton is an explicit `Logger` object, and
    `log::set_logger`'s one-time registration is its `installed` field.
    The file system is an input: `init` receives the directory listing
    (None when creating or reading the directory failed), the timestamped
    name chosen for the new file, and whether creating it succeeds. */
module Logging {
  import opened Basics
  import opened States
  import opened Paths

  /** `log::Level`, most severe first. */
  datatype Level = Error | Warn | Info | Debug | Trace

  /** The `log` crate's numbering of the levels, which orders them. */
  function Verbosity(l: Level): (v: nat)
    ensures 1 <= v <= 5
  {
    match l
    case Error => 1
    case Warn => 2
    case Info => 3
    case Debug => 4
    case Trace => 5
  }

  /** The numbering tells the levels apart, so comparing numbers is a total
      order on levels. */
  lemma VerbosityInjective(a: Level, b: Level)
    ensures Verbosity(a) == Verbosity(b) <==> a == b
  {
  }

  /** A directory entry: its file name and its creation time, None when the
      metadata could not be read. */
  datatype DirEntry = DirEntry(name: string, created: Option<int>)

  /** The order of `Option<SystemTime>`: None first, then by time. */
  predicate KeyLe(a: Option<int>, b: Option<int>)
  {
    a.None? || (b.Some? && a.value <= b.value)
  }

  /** The rotation candidates are the entries whose extension is exactly `log`. */
  predicate IsLogFile(e: DirEntry)
  {
    Extension(e.name) == Some("log")
  }

  /** A candidate is a name ending in ".log" with a non-empty stem, so
      ".log", "x.LOG" and "x.log.bak" are not candidates. */
  lemma LogFileName(e: DirEntry)
    ensures IsLogFile(e) <==> |e.name| > 4 && e.name[|e.name| - 4..] == ".log"
  {
    if e.name != ".." {
      ExtensionIs(e.name, "log");
    }
  }

  /** The `filter_map` over the directory listing: the candidates, in
      listing order. */
  function Candidates(entries: seq<DirEntry>): (c: seq<DirEntry>)
    ensures |c| <= |entries|
    ensures forall x :: x in c <==> x in entries && IsLogFile(x)
  {
    if entries == [] then []
    else
      var last := entries[|entries| - 1];
      Candidates(entries[..|entries| - 1]) + (if IsLogFile(last) then [last] else [])
  }

  /** Filtering distributes over concatenation, so the candidates keep the
      listing's order and multiplicity. */
  lemma {:induction false} CandidatesAppend(a: seq<DirEntry>, b: seq<DirEntry>)
    ensures Candidates(a + b) == Candidates(a) + Candidates(b)
    decreases |b|
  {
    if b == [] {
      assert a + b == a;
    } else {
      var b' := b[..|b| - 1];
      assert (a + b)[..|a + b| - 1] == a + b';
      assert (a + b)[|a + b| - 1] == b[|b| - 1];
      CandidatesAppend(a, b');
    }
  }

  predicate SortedByCreated(s: seq<DirEntry>)
  {
    forall i, j :: 0 <= i < j < |s| ==> KeyLe(s[i].created, s[j].created)
  }

  /** The entries of `s` whose creation time is `k`, in order. */
  function WithKey(s: seq<DirEntry>, k: Option<int>): seq<DirEntry>
  {
    if s == [] then []
    else WithKey(s[..|s| - 1], k) + (if s[|s| - 1].created == k then [s[|s| - 1]] else [])
  }

  /** Place `e` after every entry of the sorted `s` that is not newer. */
  function Insert(s: seq<DirEntry>, e: DirEntry): (r: seq<DirEntry>)
    ensures multiset(r) == multiset(s) + multiset{e}
  {
    if s == [] || KeyLe(s[|s| - 1].created, e.created) then s + [e]
    else
      var init := s[..|s| - 1];
      assert s == init + [s[|s| - 1]];
      Insert(init, e) + [s[|s| - 1]]
  }

  lemma {:induction false} InsertSorted(s: seq<DirEntry>, e: DirEntry)
    requires SortedByCreated(s)
    ensures SortedByCreated(Insert(s, e))
  {
    if s != [] && !KeyLe(s[|s| - 1].created, e.created) {
      var init, last := s[..|s| - 1], s[|s| - 1];
      InsertSorted(init, e);
      var r := Insert(init, e);
      forall x | x in r
        ensures KeyLe(x.created, last.created)
      {
        assert x in multiset(r);
        if x != e {
          assert x in multiset(init);
          var i :| 0 <= i < |init| && init[i] == x;
          assert s[i] == x;
        }
      }
      assert Insert(s, e) == r + [last];
      forall i, j | 0 <= i < j < |r| + 1
        ensures KeyLe((r + [last])[i].created, (r + [last])[j].created)
      {
        if j == |r| {
          assert (r + [last])[i] == r[i] && r[i] in r;
        }
      }
    }
  }

  /** The entries of `s + [x]` with time `k`. */
  lemma WithKeySnoc(s: seq<DirEntry>, x: DirEntry, k: Option<int>)
    ensures WithKey(s + [x], k) == WithKey(s, k) + (if x.created == k then [x] else [])
  {
    assert (s + [x])[..|s|] == s;
  }

  lemma {:induction false} InsertStable(s: seq<DirEntry>, e: DirEntry, k: Option<int>)
    ensures WithKey(Insert(s, e), k) == WithKey(s, k) + (if e.created == k then [e] else [])
  {
    if s == [] || KeyLe(s[|s| - 1].created, e.created) {
      WithKeySnoc(s, e, k);
    } else {
      var init, last := s[..|s| - 1], s[|s| - 1];
      var r := Insert(init, e);
      InsertStable(init, e, k);
      WithKeySnoc(r, last, k);
      WithKeySnoc(init, last, k);
      assert init + [last] == s;
      assert last.created != e.created;
    }
  }

  /** `sort_by_key` on the creation time: a stable sort. */
  function SortByCreated(s: seq<DirEntry>): (r: seq<DirEntry>)
    ensures multiset(r) == multiset(s)
  {
    if s == [] then []
    else
      assert s == s[..|s| - 1] + [s[|s| - 1]];
      Insert(SortByCreated(s[..|s| - 1]), s[|s| - 1])
  }

  /** The sort orders by creation time, unreadable times first, and keeps
      entries with equal times in their original order. */
  lemma {:induction false} SortByCreatedCorrect(s: seq<DirEntry>)
    ensures SortedByCreated(SortByCreated(s))
    ensures forall k :: WithKey(SortByCreated(s), k) == WithKey(s, k)
  {
    if s != [] {
      var init, last := s[..|s| - 1], s[|s| - 1];
      SortByCreatedCorrect(init);
      InsertSorted(SortByCreated(init), last);
      forall k
        ensures WithKey(SortByCreated(s), k) == WithKey(s, k)
      {
        InsertStable(SortByCreated(init), last, k);
      }
    }
  }

  /** How many of `n` candidates `init` removes to keep `maxFiles`. */
  function ExcessCount(n: nat, maxFiles: nat): (excess: nat)
    ensures excess <= n
    ensures n - excess == if n < maxFiles then n else maxFiles
  {
    if n > maxFiles then n - maxFiles else 0
  }

  /** The sorted candidates of a directory listing. */
  function Ranked(entries: seq<DirEntry>): seq<DirEntry>
  {
    SortByCreated(Candidates(entries))
  }

  /** The files `init` removes: the oldest candidates beyond `maxFiles`. */
  function Obsolete(entries: seq<DirEntry>, maxFiles: nat): (r: seq<DirEntry>)
    ensures |r| == ExcessCount(|Candidates(entries)|, maxFiles)
    ensures forall i :: 0 <= i < |r| ==> r[i] == Ranked(entries)[i]
  {
    assert |Ranked(entries)| == |multiset(Ranked(entries))| == |Candidates(entries)|;
    var ranked := Ranked(entries);
    ranked[..ExcessCount(|ranked|, maxFiles)]
  }

  /** The old files `init` keeps: the newest `maxFiles` candidates. */
  function Surviving(entries: seq<DirEntry>, maxFiles: nat): (r: seq<DirEntry>)
    ensures |r| == |Candidates(entries)| - ExcessCount(|Candidates(entries)|, maxFiles)
    ensures forall i :: 0 <= i < |r| ==> r[i] == Ranked(entries)[|Ranked(entries)| - |r| + i]
  {
    assert |Ranked(entries)| == |multiset(Ranked(entries))| == |Candidates(entries)|;
    var ranked := Ranked(entries);
    ranked[ExcessCount(|ranked|, maxFiles)..]
  }

  /** Rotation removes only `.log` files of the directory. */
  lemma ObsoleteAreCandidates(entries: seq<DirEntry>, maxFiles: nat)
    ensures forall x :: x in Obsolete(entries, maxFiles) ==> x in entries && IsLogFile(x)
  {
    var ranked := Ranked(entries);
    var n := ExcessCount(|ranked|, maxFiles);
    forall x | x in ranked[..n]
      ensures x in entries && IsLogFile(x)
    {
      assert x in ranked;
      assert x in multiset(ranked);
      assert x in multiset(Candidates(entries));
    }
  }

  /** Removed and kept files together are exactly the candidates, and at
      most `maxFiles` are kept: all of them when there are no more. */
  lemma RotationPartition(entries: seq<DirEntry>, maxFiles: nat)
    ensures multiset(Obsolete(entries, maxFiles) + Surviving(entries, maxFiles)) == multiset(Candidates(entries))
    ensures |Surviving(entries, maxFiles)| ==
              if |Candidates(entries)| < maxFiles then |Candidates(entries)| else maxFiles
  {
    var ranked := Ranked(entries);
    var n := ExcessCount(|ranked|, maxFiles);
    assert ranked[..n] + ranked[n..] == ranked;
    assert |ranked| == |multiset(ranked)| == |Candidates(entries)|;
  }

  /** Rotation never removes a file that is newer than one it keeps. */
  lemma ObsoleteAreOldest(entries: seq<DirEntry>, maxFiles: nat)
    ensures forall i, j :: 0 <= i < |Obsolete(entries, maxFiles)| && 0 <= j < |Surviving(entries, maxFiles)| ==>
              KeyLe(Obsolete(entries, maxFiles)[i].created, Surviving(entries, maxFiles)[j].created)
  {
    var ranked := Ranked(entries);
    var n := ExcessCount(|ranked|, maxFiles);
    SortByCreatedCorrect(Candidates(entries));
    forall i, j | 0 <= i < n && 0 <= j < |ranked| - n
      ensures KeyLe(ranked[..n][i].created, ranked[n..][j].created)
    {
      assert ranked[..n][i] == ranked[i] && ranked[n..][j] == ranked[n + j];
    }
  }

  /** The handle of the log file `init` created. */
  datatype LogHandle = LogHandle(path: string)

  /** `logs_dir.join(name)` for a relative file name: a separator is added
      only when the directory is non-empty and does not already end in one. */
  function Join(dir: string, name: string): (j: string)
    ensures |j| >= |dir| + |name| && j[..|dir|] == dir && j[|j| - |name|..] == name
    ensures dir != "" ==> |j| - |name| - 1 >= 0 && j[|j| - |name| - 1] == '/'
    ensures dir != "" && dir[|dir| - 1] == '/' ==> |j| == |dir| + |name|
    ensures |j| <= |dir| + |name| + 1
  {
    if dir == "" || dir[|dir| - 1] == '/' then dir + name else dir + "/" + name
  }

  const NewEventsNoise := "NewEvents emitted without explicit RedrawEventsCleared"
  const RedrawNoise := "RedrawEventsCleared emitted without explicit MainEventsCleared"

  class Logger {
    const level: State<Option<Level>>
    const path: State<Option<string>>
    const file: State<Option<LogHandle>>
    /** Whether a logger has been registered with the `log` facade. */
    var installed: bool

    ghost predicate Valid()
      reads this, level, path, file
    {
      && level as object != path as object
      && level as object != file as object
      && path as object != file as object
      && level.lock != path.lock && level.lock != file.lock && path.lock != file.lock
    }

    /** `Logger::new`: level Info, no path, no file, nothing registered. */
    constructor ()
      ensures Valid() && !installed
      ensures level.snapVal == Some(Info) && path.snapVal == None && file.snapVal == None
    {
      level := new State<Option<Level>>.From(Some(Info));
      path := new State<Option<string>>.From(None);
      file := new State<Option<LogHandle>>.From(None);
      installed := false;
    }

    /** `get_level`: the configured level, Info when none is set. */
    function GetLevel(): (l: Level)
      reads this, level
      ensures level.snapVal.Some? ==> l == level.snapVal.value
      ensures level.snapVal.None? ==> l == Info
    {
      level.snapVal.GetOr(Info)
    }

    /** `set_level`: afterwards `get_level` returns `l`; nothing else changes. */
    method SetLevel(l: Level)
      requires Valid()
      modifies level, level.lock
      ensures Valid() && GetLevel() == l && !level.IsLocked()
    {
      level.UnsafeSet(Some(l));
    }

    /** `enabled`: a record passes when its level is no more verbose than
        the configured one. */
    predicate Enabled(record: Level)
      reads this, level
      ensures Enabled(record) <==> Verbosity(record) <= Verbosity(GetLevel())
    {
      Verbosity(record) <= Verbosity(GetLevel())
    }

    /** `log`: a record is emitted when it is enabled and is not one of the
        two windowing-library messages; writing it briefly locks the file
        cell through `unsafe_lock`, whose drop clears that cell's flag.
        The terminal and file output are not modelled. */
    method Log(record: Level, msg: string) returns (emitted: bool)
      requires Valid()
      modifies file, file.lock
      ensures Valid()
      ensures emitted <==> Enabled(record) && msg != NewEventsNoise && msg != RedrawNoise
      ensures file.snapVal == old(file.snapVal)
      ensures emitted ==> !file.IsLocked()
      ensures !emitted ==> unchanged(file, file.lock)
    {
      emitted := Enabled(record) && msg != NewEventsNoise && msg != RedrawNoise;
      if emitted {
        var g := file.UnsafeLock();
        g.Drop();
      }
    }

    /** `init`: with `maxFiles > 0`, remove the oldest candidates beyond
        `maxFiles` and create the new file; then store path and file (both
        None when `maxFiles == 0`) and register the logger. An I/O failure
        returns before path and file are stored, but removals already made
        stay made; a second registration fails after they are stored. */
    method Init(logsDir: string, maxFiles: nat, newName: string,
                listing: Option<seq<DirEntry>>, createOk: bool)
      returns (removed: seq<DirEntry>, r: Result<()>)
      requires Valid()
      modifies this, path, path.lock, file, file.lock
      ensures Valid() && level.snapVal == old(level.snapVal)
      ensures removed == if maxFiles > 0 && listing.Some? then Obsolete(listing.value, maxFiles) else []
      ensures maxFiles > 0 && (listing.None? || !createOk) ==>
                r == Err(Io) && path.snapVal == old(path.snapVal) && file.snapVal == old(file.snapVal)
                && installed == old(installed)
      ensures maxFiles == 0 ==> path.snapVal == None && file.snapVal == None
      ensures maxFiles > 0 && listing.Some? && createOk ==>
                path.snapVal == Some(Join(logsDir, newName)) && file.snapVal == Some(LogHandle(Join(logsDir, newName)))
      ensures (maxFiles == 0 || (listing.Some? && createOk)) ==>
                installed && r == (if old(installed) then Err(LoggerInit) else Ok(()))
    {
      removed := [];
      var newPath: Option<string> := None;
      var newFile: Option<LogHandle> := None;
      if maxFiles > 0 {
        var filePath := Join(logsDir, newName);
        if listing.None? {
          return [], Err(Io);
        }
        var logFiles := SortByCreated(Candidates(listing.value));
        if |logFiles| > maxFiles {
          var excess := |logFiles| - maxFiles;
          for i := 0 to excess
            invariant removed == logFiles[..i]
          {
            removed := removed + [logFiles[i]];
          }
        }
        if !createOk {
          return removed, Err(Io);
        }
        newPath, newFile := Some(filePath), Some(LogHandle(filePath));
      }
      path.UnsafeSet(newPath);
      file.UnsafeSet(newFile);
      if installed {
        r := Err(LoggerInit);
      } else {
        installed := true;
        r := Ok(());
      }
    }
  }
}
