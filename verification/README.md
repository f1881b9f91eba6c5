# pindown, modelled in Dafny

pindown copies new Pinboard bookmarks into Markdown files, one file per
bookmark, for a Pelican site. Each invocation of `main()` does four things:

1. It checks that the output directory is writable.
2. It loads the `[pindown]` section of `config.ini`.
3. It compares the collection's last-modified time with the stored sync marker
   `last_import`. If nothing changed it stops; otherwise it fetches the
   bookmarks added since the marker.
4. It renders each bookmark through a Jinja template into `<output>/<slug>.md`,
   never overwriting a file that exists, then stores the remote's
   last-modified time as the new marker.

This project models that invocation as a pure state transition and proves
properties of it:

    Pindown.Run(req, now, remote, lib, disk) -> RunResult(outcome, disk')

- `disk` is the settings file (a map from section to key/value map) plus the
  output files (a map from path to content).
- `req` holds the command line: output directory, dry-run flag, timezone
  override, and whether the directory is writable.
- `remote` is the bookmark service: its last-modified time and the bookmarks
  added since a given time.
- `lib` holds the libraries as plain functions: slug builder, template, zone
  check, date parsing and formatting.
- Times are integers.

Modules:

- `Wrappers` (`wrappers.dfy`): `Option` and `Result`.
- `ConfigStore` (`config_store.dfy`): `load_config` / `save_config`, and
  setting the marker.
- `Pipeline` (`pipeline.dfy`): the per-bookmark loop as a left fold over the
  fetched sequence, threading the file map through and producing one log
  report per bookmark.
- `Pindown` (`pindown.dfy`): `main()`, covering its early exits, setup
  failures, the batch and the marker update.

The outcomes are:

- `Unwritable`: the output directory cannot be written to.
- `NoConfig`: settings could not be loaded. In the model this means there
  is no `[pindown]` section; see `ConfigStore.Load` under "Left out" for the
  other ways the program reaches this exit.
- `Crashed`: an exception nobody catches ended the run before any fetch.
- `NoUpdate`: nothing changed remotely.
- `Completed`: a batch ran. It carries the fetch start time and the per-bookmark reports.

Three behaviours of the code are modelled as written, even though one might
expect otherwise:

- A failed render does not hold back the marker. `last_import` advances after
  the loop whether or not renders failed. So when the remote has not changed
  since, the next run is a no-op, and a bookmark whose render failed is not
  fetched again (`Pindown.RerunIsNoOp`). One might expect the next run to
  retry it. Whether a later fetch from the new marker happens to include it
  is up to the service, which the model leaves open.
- A first run that finds the remote no newer than now stores nothing.
  Without a stored marker, the marker defaults to the current time in memory
  only, and the no-update exit never saves it. If the remote's clock is
  ahead of now, the first run completes and stores the remote's time like
  any other run (`Pindown.FirstRunNoBackfill`).
- A rejected `--timezone` does not fall back to a default. The error is
  logged, no zone is bound, and the run dies at the next use of the zone
  (`Crashed(UnboundZone)`).

## Model

| member | source | states |
|---|---|---|
| `ConfigStore.Save` | pindown.py:179-190 | the saved file holds only the `[pindown]` section, and loading it back gives exactly the saved settings, every key included |
| `ConfigStore.WithMarker` | pindown.py:159-160 | setting the marker keeps every other key and its value, adds no other key, and makes `last_import` the given text |
| `Pipeline.JoinPath` | pindown.py:125 | the joined path ends with the file name; an absolute name replaces the directory; a relative name follows the directory, with one `/` added between them exactly when the directory is non-empty and does not already end in `/` |
| `Pipeline.JoinPathInjective` | pindown.py:125 | within one directory, two relative names give the same path exactly when the names are equal |
| `Pipeline.TargetsCollideIffSlugsEqual` | pindown.py:123-125 | two bookmarks with relative slugs target the same file if and only if their slugs are equal |
| `Pipeline.Step` | pindown.py:122-156 | one bookmark: existing files are untouched; a failed render logs its slug and writes nothing; a dry run writes nothing; otherwise the output is written exactly when the target does not exist |
| `Pipeline.WriteAll` | pindown.py:121-156 | the loop gives one report per bookmark and never rewrites or removes an existing file |
| `Pipeline.ReportsMatchRenders` | pindown.py:140-156 | report i says "render failed" with the slug exactly when bookmark i failed to render; every other report names bookmark i's target path |
| `Pipeline.FirstSuccessWins` | pindown.py:121-154 | a path that did not exist is written exactly when some bookmark rendered and targets it; it then holds the output of the first such bookmark in fetch order |
| `Pipeline.WriteAllAppend` | pindown.py:121-156 | the loop over a concatenated batch equals the loop over the first part followed by the loop over the second part, started from the files the first part left |
| `Pipeline.FailedRenderIsInert` | pindown.py:141-145 | a bookmark whose render fails leaves the same files as a batch without it; every later bookmark is processed and reported as if it were absent |
| `Pipeline.WriteAllStable` | pindown.py:149-154 | when the target of every bookmark that renders already exists, the loop changes no file and reports no write |
| `Pipeline.WriteAllCovers` | pindown.py:149-152 | after a real run of the loop, the target of every bookmark that rendered exists |
| `Pipeline.WriteAllIdempotent` | pindown.py:148-156 | a second pass over the same bookmarks, started from the files the first pass left, changes nothing and writes no file |
| `Pipeline.DryRunLeavesDisk` | pindown.py:148-156 | in debug mode the files are exactly as before and no bookmark is reported as written |
| `Pindown.RejectedOverrideCrashes` | pindown.py:89-98 | a `--timezone` the zone database rejects never falls back to the stored `local_tz`, whatever that holds: the run crashes with no zone bound, and settings and files are unchanged |
| `Pindown.StoredZoneFailuresCrash` | pindown.py:95-96 | without an override, a missing `local_tz` or one naming an unknown zone crashes the run, and settings and files are unchanged |
| `Pindown.UnreadableMarkerCrashes` | pindown.py:106-107 | once zone and API token are in place, a stored `last_import` the date parser rejects crashes the run with that text, instead of defaulting to now; settings and files are unchanged |
| `Pindown.MissingSectionQuits` | pindown.py:55-59 | a run quits with `NoConfig` exactly when the output is writable and the settings file has no `[pindown]` section, and then it changes nothing |
| `Pindown.Run` | pindown.py:50-161 | an unwritable output ends the run first; every exit other than a completed batch, and every dry run, leaves settings and files unchanged; existing files are never rewritten; a completed real run persists the loaded settings with only `last_import` moved to the remote's time, even when renders failed |
| `Pindown.ReachesRemoteOnlyAfterSetup` | pindown.py:50-112 | a run ends in "no update" or completes only when the output is writable, the `[pindown]` section exists, the zone in use (override, else stored `local_tz`) is known, the API token is stored, and a stored `last_import` is readable |
| `Pindown.NoUpdateExactly` | pindown.py:106-118 | once setup passes, with `t` the stored `last_import` as the date parser reads it (or the current time when none is stored), the run is a no-op exactly when the remote's time is at most `t`, and completes exactly when the remote is later, fetching from `t` |
| `Pindown.FirstRunNoBackfill` | pindown.py:106-161 | with no stored marker, the fetch window starts at the current time; when the remote is not newer, the disk is unchanged and still has no marker; when a real first run completes, it stores the remote's time |
| `Pindown.RunFirstSuccessWins` | pindown.py:118-154 | after a completed real run, a new file exists exactly when some fetched bookmark rendered and targets it, and it holds the first such bookmark's output |
| `Pindown.RerunIsNoOp` | pindown.py:141-161 | when the stored marker text reads back as the remote's time, a second run against the same remote is a no-op, even if renders failed in the first run |

## Left out

- The Pinboard client (`pb.posts.update`, `pb.posts.all`) is network I/O. It is
  the `Remote` input, and its failures are not modelled.
- Slug building (the `Slugify` library with stop words, lower-casing and a
  32-character limit) is the opaque `slugOf`. Stop-word file loading
  (lines 62-69) is folded into it. Nothing is claimed about slugs; in
  particular, a slug can be empty.
- The Jinja environment, template loading and the built-in default template
  (lines 72-87) are the opaque `render`. It returns `None` where rendering
  raises.
- Time zones and dates are opaque functions:
  - `knownZone` is the zone lookup.
  - `localDate` is the conversion to local time plus `isoformat`.
  - `parseTime` is `dateutil` parsing.
  - `formatTime` is `isoformat`.

  Comparing a zone-less stored marker with the UTC remote time raises; this
  is folded into `parseTime` returning `None`.
- ConfigStore.Load: models only the missing `[pindown]` section (which
  includes a missing file) as a load failure. `load_config` returns False on
  any exception (lines 166-177), so two more cases also reach the quit at
  lines 57-59: a `config.ini` the parser cannot parse (line 168), and a
  `[pindown]` value with a lone `%` that makes interpolation raise
  (line 169). The model's ini map is already parsed and interpolated, so
  neither case is represented.
- ConfigParser details: option-name lower-casing, `%` interpolation and the
  DEFAULT section. A failure of `save_config` (only logged, lines 188-190) is
  not modelled; saving always succeeds.
- Pipeline.Step: the never-overwrite test (line 149) asks the operating
  system whether a regular file exists at the path; the model looks the path
  up as text in the file map. The map must be keyed by the exact spelling the
  program builds from `--output`. Two spellings of one file (`./out/a.md` and
  `out/a.md`), symbolic links (a dangling link reads as absent, and the write
  at line 150 goes through it) and case-insensitive file systems are not
  modelled.
- Failure of a file write, or a directory sitting at a target path, would raise
  mid-batch. It is not modelled; every write succeeds.
- The in-memory assignment of the defaulted marker (line 110) has no member
  of its own. It is overwritten before any save (line 160) and never stored
  otherwise, which `Pindown.FirstRunNoBackfill` and `Pindown.Run` state.
- The `is not None` test at line 106: ConfigParser values are never `None`, so
  key presence is the whole test.
- Argument parsing, logging setup and the unicode hack (lines 25-47,
  192-222) are process plumbing. Log lines are modelled only as the
  per-bookmark `Report`.
