# atoman, modelled in Dafny

A sequential model of the `atoman` crate. The crate provides an atomic
boolean **Flag** and an atomic **State** cell. A State keeps its committed
value twice, once behind a mutex and once as a lock-free swap snapshot, and
it has a write flag. A **StateGuard** is a write lease: it edits a private
copy, and when it is dropped it commits that copy to both slots and clears
the flag. The model also covers three collaborators built on these cells:

- the log-tail **Trace** (a line queue plus an "available" flag);
- the rotating **Logger** (which old `.log` files `init` removes, and the level filter);
- the file-backed **Config** (choosing the format by extension, and the order of effects on the path and data cells).

Files:

- `flag.dfy`: `Flags.Flag`.
- `state.dfy`: `States.State` and `States.StateGuard`, in one module because each refers to the other.
- `trace.dfy`: `Traces`.
- `logger.dfy`: `Logging`.
- `config.dfy`: `Configs`.
- `paths.dfy`: the helpers those share, namely a path's final component, Rust's `Path::extension` rule and ASCII upper-casing.
- `basics.dfy`: the shared `Option`, `Result` and the crate's `Error`.

Blocking waits have no sequential meaning: nothing else can run while a
caller waits. So every wait becomes a precondition that its condition
already holds:

- `wait_unlock` becomes `!IsLocked()`;
- `Flag::wait(v)` becomes `Get() == v`;
- `next_line`'s wait for a queued line becomes "the queue is non-empty".

The `unsafe_*` operations carry no such precondition. I/O results are
parameters instead of effects:

- file modification times;
- the raw lines `read_line` returns;
- directory listings;
- whether a file creation or write succeeds;
- a file system given as a map from path to contents.

The timestamped log file name is also a parameter. The value type's
`Default` is passed in as a value, and serialization is an opaque `Codec`
made of two functions.

The model follows the code as written, including these points of it:

- `src/flag/flag.rs` and `src/state/state.rs` define no thread-blocking (`blocking_*`) or deadline variants.
- `unsafe_lock` lets a second guard exist beside a first one.
- `src/config/config.rs` calls a synchronous `State` API and a one-argument `State::new(value)`, which `src/state/state.rs` does not define. Those calls are modelled with `State.Set`/`State.Get`/`State.GetCloned` (unlocked preconditions) and `State.From`.
- `Config::parse` and `Config::write` pick the format by the same rule, so one function, `SelectFormat`, serves both.

## Model

| member | source | states |
|---|---|---|
| Flags.Flag.constructor | src/flag/flag.rs:17-26 | a new flag reads false |
| Flags.Flag.From | src/flag/flag.rs:99-105 | `Flag::from(v)` reads `v` |
| Flags.Flag.Get | src/flag/flag.rs:39-41 | `get` returns the atomic bit |
| Flags.Flag.IsTrue | src/flag/flag.rs:29-31 | `is_true` equals `get` |
| Flags.Flag.IsFalse | src/flag/flag.rs:34-36 | `is_false` equals the negation of `get` |
| Flags.Flag.Set | src/flag/flag.rs:44-47 | after `set(v)`, `get` returns `v` |
| Flags.Flag.Wait | src/flag/flag.rs:50-58 | `wait(v)` returns only in a state where `get() == v`, and it leaves the flag unchanged |
| Flags.Flag.Swap | src/flag/flag.rs:61-64 | `swap(v)` proceeds once the flag reads `!v` and leaves it reading `v` |
| Flags.Flag.Eq | src/flag/flag.rs:87-91 | two flags are equal iff their current values are equal |
| Flags.Flag.EqBool | src/flag/flag.rs:93-97 | a flag equals a bool iff it currently reads that bool |
| States.State.constructor | src/state/state.rs:20-33 | both slots hold the default value, the slots agree, and the flag is clear |
| States.State.Default | src/state/state.rs:116-122 | `Default` yields a State holding the default value, unlocked |
| States.State.From | src/state/state.rs:124-130 | `State::from(v)` holds `v` in both slots, unlocked |
| States.State.IsLocked | src/state/state.rs:36-38 | `is_locked` is the write flag's value |
| States.State.UnsafeLock | src/state/state.rs:54-63 | raises the flag even when it is already raised, and returns a fresh live guard seeded with the last committed snapshot; the committed value is untouched |
| States.State.Lock | src/state/state.rs:48-51 | only when unlocked: raises the flag and returns a fresh guard whose working copy is the current snapshot |
| States.State.Get | src/state/state.rs:66-69 | when unlocked, returns the committed snapshot and changes nothing |
| States.State.UnsafeGet | src/state/state.rs:72-74 | returns the snapshot whatever the flag, changing nothing |
| States.State.GetCloned | src/state/state.rs:77-80 | when unlocked, returns (a copy of) the snapshot and changes nothing |
| States.State.UnsafeGetCloned | src/state/state.rs:83-85 | returns (a copy of) the snapshot whatever the flag, changing nothing |
| States.State.Set | src/state/state.rs:88-90 | after `set(v)` both slots hold `v` and the State is unlocked again |
| States.State.UnsafeSet | src/state/state.rs:93-95 | the same round trip without waiting for the flag |
| States.State.Map | src/state/state.rs:98-104 | `map(f)` commits `f(old value)` to both slots and leaves the State unlocked |
| States.State.UnsafeMap | src/state/state.rs:107-113 | the same without waiting for the flag |
| States.StateGuard.constructor | src/state/state.rs:57-62 | a guard is born live, bound to its State, holding the given working copy |
| States.StateGuard.Deref | src/state/guard.rs:23-28 | `Deref` yields exactly the working copy |
| States.StateGuard.Assign | src/state/guard.rs:31-35 | a write through `DerefMut` changes only the working copy; the State and its flag are unchanged |
| States.StateGuard.Drop | src/state/guard.rs:13-21 | dropping writes the final working copy to the mutex slot and to the snapshot (so they agree) and always clears the flag |
| States.LockDropUnchanged | src/state/guard.rs:14-20 | locking and dropping a guard without edits leaves the committed value unchanged and the State unlocked |
| States.LastCommitWins | src/state/guard.rs:14-20 | with two overlapping guards, the second is seeded from the committed value rather than the first's edits; the first drop clears the flag while the second is alive; the value committed is that of the guard dropped last |
| Traces.StripNewline | src/trace/trace.rs:132-134 | exactly one trailing `'\n'` is removed when present; appending it back gives the raw line, so a `'\r'` before it is kept |
| Traces.Normalized | src/trace/trace.rs:127-141 | the returned lines are never empty and are no more than the raw lines |
| Traces.NormalizedAppend | src/trace/trace.rs:130-139 | normalizing keeps order: two consecutive runs of raw lines yield the first run's lines followed by the second's |
| Traces.NormalizedMember | src/trace/trace.rs:131-137 | a line is returned iff it is non-empty and equals some raw line with its terminator stripped |
| Traces.ReadNewLines | src/trace/trace.rs:117-142 | the loop returns exactly the normalized lines of the raw lines read |
| Traces.Trace.Open | src/trace/trace.rs:30-51 | the queue starts empty and `available` false; the poll task's `last_mod` starts at the file's time, or the epoch when that is unreadable |
| Traces.Trace.Poll | src/trace/trace.rs:53-74 | reads only when the mtime exceeds `last_mod`, and then moves `last_mod` to it (strictly up), even when the read failed; the new lines are appended at the back; `available` becomes true iff it was already true or some line was delivered; a non-empty queue always has `available` set |
| Traces.Trace.TakeOrReset | src/trace/trace.rs:94-100 | with `available` set: pops and returns the front line of a non-empty queue, or, when the queue is empty, returns nothing and clears `available` |
| Traces.Trace.NextLine | src/trace/trace.rs:87-102 | when a line is queued: returns the front line (never None) and leaves the rest queued |
| Traces.PollThenNext | src/trace/trace.rs:61-97 | lines come out first-in first-out: after a poll, the next line read is the front of the queue as it was with the batch appended behind it, and the rest stays queued |
| Paths.FileName | src/config/config.rs:48 | `Path::file_name` is a suffix of the path holding no `/`, starting at the path's start or right after a `/` |
| Paths.Extension | src/logger/logger.rs:75 | `Path::extension` of a file name never contains a `'.'`; `ExtensionIs` characterises it completely |
| Paths.ExtensionIs | src/logger/logger.rs:75 | `Path::extension` is `e` iff the name ends in `"." + e` after a non-empty stem and `e` holds no `'.'` |
| Paths.Upper | src/config/config.rs:51 | upper-casing keeps the length and upper-cases each ASCII letter in place |
| Paths.UpperMatches | src/config/config.rs:51 | an extension upper-cases to a lower-case word's upper-case form iff it spells that word in any mix of cases |
| Logging.LogFileName | src/logger/logger.rs:71-81 | a rotation candidate is exactly a name ending in `.log` with a non-empty stem, so `.log`, `x.LOG` and `x.log.bak` are not candidates |
| Logging.Candidates | src/logger/logger.rs:71-81 | the candidates are exactly the listed entries whose extension is `log` |
| Logging.CandidatesAppend | src/logger/logger.rs:71-82 | the filter distributes over concatenation, so the candidates keep the listing's order and multiplicity, which decides ties in the stable sort |
| Logging.SortByCreated | src/logger/logger.rs:84 | the sort is a permutation of its input |
| Logging.SortByCreatedCorrect | src/logger/logger.rs:84 | the sort orders entries by creation time with unreadable times first, and it is stable: entries with equal times keep their order |
| Logging.ExcessCount | src/logger/logger.rs:87-88 | the number removed leaves `min(len, max_files)` candidates |
| Logging.Obsolete | src/logger/logger.rs:87-91 | the removed files are the first `ExcessCount(len, max_files)` entries of the sorted candidates |
| Logging.Surviving | src/logger/logger.rs:87-91 | the kept old files are the last `min(len, max_files)` entries of the sorted candidates |
| Logging.ObsoleteAreCandidates | src/logger/logger.rs:71-91 | only `.log` files from the listing are ever removed |
| Logging.RotationPartition | src/logger/logger.rs:87-91 | the removed files plus the kept files are exactly the candidates, and `min(len, max_files)` are kept |
| Logging.ObsoleteAreOldest | src/logger/logger.rs:84-91 | no removed file is newer than a kept one: the removed files are the first `len - max_files` of the sorted list |
| Logging.Join | src/logger/logger.rs:64-65 | `PathBuf::join` gives the directory, then the name, with exactly one `/` between them when the directory is non-empty, and none added when it already ends in `/` |
| Logging.Logger.constructor | src/logger/logger.rs:22-28 | the level starts at Info, and there is no path and no file |
| Logging.Logger.GetLevel | src/logger/logger.rs:49-51 | `get_level` is the stored level, Info when none is stored |
| Logging.Logger.SetLevel | src/logger/logger.rs:54-56 | after `set_level(l)`, `get_level` returns `l`, and the level cell is left unlocked |
| Logging.Verbosity | src/logger/logger.rs:114-116 | each `log::Level` has a rank from 1 (Error) to 5 (Trace); ranks compare levels by verbosity |
| Logging.VerbosityInjective | src/logger/logger.rs:114-116 | distinct levels have distinct ranks, so the comparison in `enabled` is a total order on levels |
| Logging.Logger.Enabled | src/logger/logger.rs:114-116 | a record is enabled iff its level is no more verbose than the configured level |
| Logging.Logger.Log | src/logger/logger.rs:118-162 | a record is emitted iff it is enabled and is neither of the two windowing messages; emitting leaves the file cell's value unchanged and its flag clear |
| Logging.Logger.Init | src/logger/logger.rs:59-103 | the removals are the oldest candidates beyond `max_files` (none when `max_files == 0`). An I/O failure returns `Io` before path and file are stored. Otherwise path and file hold the new file, `logs_dir` joined with its name (a `/` is added only when the directory does not already end in one), or are both None when `max_files == 0`. Registration fails with `LoggerInit` on a second call |
| Configs.FormatTag | src/config/config.rs:48-52 | the tag is `"TOML"` when the path has no extension; otherwise it is the upper-cased extension |
| Configs.SelectFormat | src/config/config.rs:48-61 | TOML or JSON iff the tag names that enabled format; otherwise `ConfigExt` carrying the upper-cased extension |
| Configs.NoExtensionIsToml | src/config/config.rs:48-51 | a path without an extension is TOML |
| Configs.TomlIgnoresCase | src/config/config.rs:48-55 | TOML is chosen iff the feature is on and the extension is missing or spells `toml` in any case |
| Configs.JsonIgnoresCase | src/config/config.rs:48-58 | JSON is chosen iff the feature is on and the extension spells `json` in any case |
| Configs.ParseData | src/config/config.rs:48-61 | success iff the format is supported and the text deserializes (yielding that value); otherwise `ConfigExt` or the deserializer's error |
| Configs.WriteThenParse | src/config/config.rs:84-94 | parsing what `write` serialized gives the data back, for a codec that round-trips it |
| Configs.Config.Default | src/config/config.rs:6-10 | the derived default holds an empty path and the default data, unlocked |
| Configs.Config.FromParts | src/config/config.rs:63-66 | `parse`'s result holds the given path and data |
| Configs.Config.Get | src/config/config.rs:17-19 | `get` returns the committed data |
| Configs.Config.Lock | src/config/config.rs:22-24 | `lock` hands out a guard over the data cell seeded with the committed data |
| Configs.Config.Parse | src/config/config.rs:45-67 | succeeds exactly when `ParseData` does, with a fresh configuration holding the path and the parsed data; otherwise it returns `ParseData`'s error |
| Configs.Config.Read | src/config/config.rs:70-76 | a missing file, or one that cannot be read as text, is an `Io` error; otherwise the result is `parse` of its contents |
| Configs.Config.Write | src/config/config.rs:79-108 | the path is stored first, even when the extension is unsupported or the write fails. The extension decides between `ConfigExt` and writing the serialized data to that path |
| Configs.Config.Save | src/config/config.rs:111-113 | writes to the stored path and leaves it unchanged |
| Configs.Config.Update | src/config/config.rs:116-124 | replaces the data with the value read from the stored path, and leaves the path unchanged; on an error (a missing or unreadable file, `ConfigExt` or a parse error) nothing changes |
| Configs.Config.New | src/config/config.rs:27-42 | reads an existing file, leaving the file system as it is: an unreadable file fails with `Io`, and text that does not parse with `ParseData`'s error. Otherwise it writes a default configuration to the path and returns it; an unsupported extension fails with `ConfigExt`, and a failed write with `Io`, both leaving the file system unchanged |

## Left out

- The concurrent guarantees are not modelled: no lost wake-ups (`Notify`), no torn reads (`ArcSwapAny`), mutual exclusion under contention, and `SeqCst` ordering. A sequential model cannot express them; waits are preconditions instead.
- Runtime machinery is not modelled: `once_cell::Lazy` initialisation, `Arc` reference counting, mutex poisoning (the `expect` on lock), tokio tasks and `JoinHandle`, the `sleep` cadence of the poll loop, and the tokio mutex around the traced file.
- States.State.Lock: the `wait_unlock` re-check loop is the precondition `!IsLocked()`; the same holds for `Get`, `GetCloned`, `Set` and `Map`.
- Flags.Flag.Wait: the suspension is the precondition `Get() == value`; waking waiters in `set` is not modelled.
- States.State.Map: the `FnOnce(&mut T)` closure is a pure total function `T -> T`, so a closure that panics partway is not modelled.
- States.State.From: the default value the lazy slots hold before `unsafe_set` is skipped, because it is never observable.
- States.StateGuard.Drop: the mutex store and the swap store happen in one step, so the moment between them is not modelled.
- The `Debug`/`Display` impls of Flag, State and StateGuard are formatting only and are not modelled.
- Traces.Trace.Open: the file opening (and its error) is not modelled. `get_path` is a field read (`Trace.path`). `read_all` is file I/O and is not modelled.
- Traces.Trace.NextLine: it requires a queued line. When none is queued, `next_line` suspends until a later poll, which a sequential run cannot reach.
- The logger's chrono timestamps, the new file's name format, the ANSI colour and prefix formatting, and the terminal and file writes of `log` are not modelled. Nor are `get_path` and `read_logs`, which are a field read and file I/O.
- Logging.Logger.Init: `create_dir_all`/`read_dir` failures are one input and `File::create` success is another. Errors from individual directory entries and from `remove_file` are ignored by the code; the model lists each removal attempted. `log::set_max_level` is not modelled.
- Paths.Upper: `to_uppercase` is modelled on ASCII letters only. Non-ASCII case mappings (one letter becoming two, such as 'ß' to "SS", or a non-ASCII letter becoming an ASCII one, such as 'ſ' to 'S' or 'ı' to 'I') are not modelled. So for an extension such as `jſon`, which Rust upper-cases to `JSON` and reads as JSON, the model yields `ConfigExt`, and `Configs.JsonIgnoresCase` and `Configs.TomlIgnoresCase` hold only for extensions whose case mapping stays within ASCII.
- Configs.JsonIgnoresCase: holds for extensions whose upper-casing stays within ASCII; `jſon` is JSON in the code but `ConfigExt` in the model (see `Paths.Upper`). The same applies to Configs.TomlIgnoresCase.
- Configs.Config.Read: whether `read_to_string` succeeds on an existing file is one input, `readOk`; `new` and `update` pass it through.
- Paths.FileName: the final component is the text after the last `/`. Trailing separators and `.`/`..` components are not normalised, and non-UTF-8 names are not modelled.
- Configs.Config.Write: `create_dir_all` and `fs::write` failures are one input, `writeOk`. A serializer failure, where the code panics through `expect`, is not modelled.
- Serialization with serde, toml and serde_json is opaque (the `Codec` parameter). `log::set_logger` registration is the `installed` field.
- src/stream/mod.rs is channel plumbing and is not part of this model. src/lib.rs and src/prelude.rs are re-exports only.
