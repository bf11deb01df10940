# imas-watchdog — a verified model of the watch-dispatch logic

imas-watchdog reads an INI file. Each section names a glob pattern, a
`recursive` setting, an `action` program and a poll `duration`. The tool
installs a polling observer on every path the pattern matches. When a
file is created or modified, it is meant to run
`action --k1 v1 --k2 v2 ... <file>`; as written it passes the last glob
match instead of `<file>` (see "## Findings"). Each `--k v` pair comes
from an option of the section that is not one of the four required ones.

This project models the pure logic between the library calls in
`main.py`:

- `ArgumentBuilder` models `convert_to_arguments`. It turns an ordered
  mapping into `--key, value` pairs. An inverse parser, `FromArguments`,
  is proved to round-trip with it in both directions.
- `Events` models the event filter of `EventHandler.handle` and the
  callbacks that reach it. It also models the argument vector handed to
  the process launcher, and a stream of events dispatched one callback
  at a time.
- `Sections` models section validation: the set of missing required
  options, the truthiness coercion of `recursive`, and the split into
  required settings and extra arguments. Properties about the extras are
  stated for every order the source's set difference could produce.
- `Supervisor` models the section loop. It compares the literal
  behaviour (while every launch starts, the loop blocks in
  `observer.join()` at the first accepted section) with the intended one (every accepted section is watched).
  The loop is stated for any per-section check. `Sections.Activate` is
  the check `main.py` performs.
- `Wrappers` provides the `Option` and `Result` types.

A section is a sequence of (name, value) entries in file order. The
configuration parser never yields a name twice (`Sections.WellFormed`).
An event is a record `{kind, isDirectory, srcPath}`.

`recursive` is modelled as written: Python's `bool` of a string, so
`"false"` and `"0"` switch recursion on (`Sections.RecursiveIsNonEmptiness`).

## Model

| member | source | states |
|---|---|---|
| ArgumentBuilder.ToArguments | main.py:33-36 | The output is twice as long as the mapping, so an empty mapping gives no arguments. Entry i is at positions 2i (`--key`) and 2i+1 (value), so the key order is kept. |
| ArgumentBuilder.FromArguments | main.py:33-36 | A flat list parses back into entries exactly when it has even length and every even position starts with `--`. This is the shape of every builder output. |
| ArgumentBuilder.ParseAfterBuild | main.py:33-36 | Parsing the built arguments gives back the same mapping, so no key, value or order information is lost. |
| ArgumentBuilder.BuildAfterParse | main.py:33-36 | Every well-formed flag/value list is the builder output of the mapping it parses to. |
| ArgumentBuilder.EvenFlagsOddValues | main.py:34-36 | Every even element is a flag. Stripping `--` from the even elements gives the key sequence, and the odd elements are the value sequence. |
| ArgumentBuilder.NoFlagForAbsentKeys | main.py:35 | A mapping whose keys avoid a set of names never puts the flag of any of those names at a flag (even) position. |
| Events.Invocation | main.py:24 | The launched vector is two longer than the argument list. Its first element is the action, its last is the path, and the middle slice is the handler's arguments unchanged. |
| Events.SplitInvocationRoundTrip | main.py:24 | Splitting an invocation recovers the action, the arguments and the path. Every vector of at least two elements is the invocation of its split. |
| Events.Handle | main.py:20-24 | An event launches the action iff it is created or modified and not about a directory. A launch uses the event's own path. |
| Events.Notify | main.py:26-30 | The observer's callbacks launch exactly when `handle`'s guard holds, and launch the same vector as `handle`: `on_created` and `on_modified` forward to it, and every other callback does nothing. |
| Events.IgnoredEvents | main.py:20-30 | Deleted, moved, opened, closed and directory events never launch, whether through the callbacks or through the guard. |
| Events.HandleAsWritten | main.py:23-24 | The literal handler filters like `Handle`. Its vector always ends with the last glob match, whatever file the event is about. |
| Events.AsWrittenAgreesOnlyOnLastMatch | main.py:24 | For a triggering event, the literal handler launches the intended vector iff the event is about the last glob match. |
| Events.AsWrittenReportsWrongFile | main.py:24 | Concrete case: the glob matches `/w/a.csv` and `/w/b.csv`, and creating `/w/a.csv` launches the action on `/w/b.csv`. |
| Events.TriggeringPaths | main.py:21 | A path is selected iff some event about it passes the filter. There are never more selected paths than events. |
| Events.TriggeringPathsAppend | main.py:20-30 | Filtering distributes over consecutive batches of events. |
| Events.IgnoredEventIsInvisible | main.py:21 | Removing a filtered-out event from a stream does not change which files are launched on. |
| Events.Dispatch | main.py:20-30 | Feeding events one callback at a time, with the corrected handler (`Events.Handle`), gives one launch per triggering event, in arrival order, each on that event's own path. |
| Sections.Lookup | main.py:65-68 | Reading an option succeeds iff the section defines it. The value read belongs to an entry of that name; with distinct names it is that entry's value. |
| Sections.Missing | main.py:57-60 | The missing set holds exactly the required names that no entry of the section defines. |
| Sections.Truthy | main.py:66 | Python truthiness of a string: true iff the string is non-empty. |
| Sections.ExtraEntries | main.py:71 | The extras are exactly the section's entries whose names are not required. Their names are the section's names minus the required set. With distinct names they form an admissible arrangement (`IsExtrasOf`). |
| Sections.Activate | main.py:57-71 | A section is skipped iff some required option is absent, and a skipped section reports exactly the absent ones. An accepted section's glob, action and duration are its own values, and `recursive` is on unless that value is empty. |
| Sections.ActivatePartitions | main.py:70-71 | In an accepted section the extras are the non-required options, each once with its own value. Required names plus extra names give all the section's names. |
| Sections.RecursiveIsNonEmptiness | main.py:66 | `recursive` is on iff its text is non-empty, so "false", "False", "0", "no" and "off" all switch it on. |
| Sections.HandlerOf | main.py:71-74 | The installed handler runs the section's action. Its arguments hold, for extra i, the flag of its name at position 2i and its value at position 2i+1. |
| Sections.ExtrasCarryNoRequiredFlag | main.py:57-71 | In any admissible order of the extras, no `--glob`, `--recursive`, `--action` or `--duration` flag sits at a flag (even) position. The argument list has two elements per non-required option. |
| Sections.ExtrasDifferOnlyInOrder | main.py:71 | Two admissible arrangements of a section's extras hold the same entries and have the same length. Only the order can differ. |
| Sections.MoreOptionsNeverSkip | main.py:59-63 | Adding options never adds missing names. A section that holds all four required options is accepted whatever other options it has. |
| Supervisor.RunAsWritten | main.py:59-79 | The literal loop skips the sections before the first accepted one, reporting each one's missing options, and watches only that section. It watches nothing iff every section is skipped. |
| Supervisor.ActivateAll | main.py:59-79 | The intended loop puts every section into exactly one of two groups. Every watched profile is the accepted result of some section, and every skip is the rejection of some section with its own name and missing options. |
| Supervisor.ActivateAllComplete | main.py:59-79 | Every accepted section is watched, and every rejected section is reported with its missing options. |
| Supervisor.ActivateAllAppend | main.py:59-63 | Processing sections in two batches gives the same result as processing them together. |
| Supervisor.SkippedSectionIsIsolated | main.py:59-63 | A section with a missing option does not change which other sections are watched. |
| Supervisor.AsWrittenWatchesOnlyTheFirst | main.py:74-79 | The literal loop watches exactly the first section the intended loop watches. Its skipped list is a prefix of the intended loop's skipped list. |
| Supervisor.AsWrittenStopsAtFirstAccepted | main.py:78-79 | With two accepted sections, the literal loop watches the first only and the intended loop watches both. |
| Supervisor.AsWrittenNeverReachesSecondSection | main.py:78-79 | Concrete case with two complete sections: only the first is ever watched. |
| Supervisor.ExampleSectionLaunch | main.py:20-74 | A section with `recursive = false` and an extra `label = x` is accepted with recursion on. Given a Created event for `/tmp/watch/report.csv`, the corrected handler (`Events.Handle`) launches `/bin/echo --label x /tmp/watch/report.csv`. |

## Left out

- The polling observer (`PollingObserver`, `schedule`, `start`, `join`; main.py:75-79): snapshot diffing and threading live in the external watchdog library. Only the effect of `join` not returning is modelled, in `Supervisor.RunAsWritten`.
- Glob expansion and home/environment expansion (main.py:65, 76): these are filesystem and environment lookups. The pattern is kept as raw text, and the list of matches is a parameter of `Events.HandleAsWritten`.
- The process launch itself (`subprocess.run`, main.py:24): only the argument vector it receives is modelled. Its exit status is never inspected by the source.
- Reading the INI file, command-line parsing, the existence check and `sys.exit` (main.py:40-55): these are I/O. The model starts from parsed sections. The INI parser's lower-casing of option names, its merging of `DEFAULT` options and its value interpolation are not modelled either.
- `float(duration)` (main.py:68): the duration is only the observer's poll interval. It is kept as raw text, so a non-numeric duration that would raise is not modelled.
- Logging (main.py:22-23, 47, 50, 62): diagnostics only.
- Supervisor.ExampleSectionLaunch: the event is a premise, not derived. Whether the observer would report it depends on the glob matches captured at startup (main.py:76-77), which are outside the model. The lemma also uses the corrected `Events.Handle`; the literal handler would end the vector with the last glob match instead (first row of "## Findings").
- Sections.Missing: the source builds a list by iterating a set. That list's order shows up only in a log message, so the model uses a set.
- Sections.ExtraEntries: the source's extras order is the iteration order of a set difference, which depends on string hashing. The model picks file order. The properties that matter (`ExtrasCarryNoRequiredFlag`, `ExtrasDifferOnlyInOrder`) are stated for every admissible arrangement.
- Sections.ExtrasCarryNoRequiredFlag: the no-required-flag promise covers flag (even) positions only. Option values are passed verbatim (main.py:35), so an extra `label = --glob` puts `--glob` at an odd position, where a downstream option parser may read it as a flag. The source has no check against this either.
- Events.Handle: the source passes the module-level `action` and `arguments` (main.py:23-24). The model uses the handler's own fields instead. The two agree whenever a handler runs, because the loop leaves a section only after that section's dispatch thread has died.
- Supervisor.RunAsWritten: assumes every launch starts. A launch that cannot start (missing or non-executable action) makes `subprocess.run` raise inside the observer's dispatch thread (main.py:24). Nothing catches it, so that thread dies, `join` (main.py:79) returns and the loop moves on to the next section. Thread death is library behaviour outside the model.
- Events.Dispatch: assumes every launch starts. After a launch that cannot start, the source handles no further events, so "one launch per triggering event" holds only up to that launch.

## Findings

| source | as written | input that shows it | evidently intended | confidence | as-written member | corrected member |
|---|---|---|---|---|---|---|
| main.py:24 | The launched vector ends with the module-level `path`, which is the last match of the glob loop at line 76. | A glob matching `/w/a.csv` and `/w/b.csv`: creating `/w/a.csv` launches the action on `/w/b.csv` (`Events.AsWrittenReportsWrongFile`). | The triggering file `event.src_path`, as the log message on line 23 shows. | high; not executed | Events.HandleAsWritten | Events.Handle |
| main.py:78-79 | `observer.join()` sits inside the section loop. Nothing stops the observer, so the loop never passes the first accepted section while every launch starts. | Two complete sections: only the first is ever watched (`Supervisor.AsWrittenNeverReachesSecondSection`). | Every complete section watched at once. | medium; not executed | Supervisor.RunAsWritten | Supervisor.ActivateAll |
