# wireshark-scte test harness, modelled in Dafny

The wireshark-scte repository ships Lua dissectors for SCTE protocols. It
also ships a small Node.js harness for them, and that harness is what this
project models:

- `tests/helpers/runTShark.js` runs `tshark` on a capture with one dissector
  loaded and returns the printed packet tree;
- `tests/helpers/compare.js` compares that report with a golden file and
  renders a line diff on mismatch;
- `tests/test_samples.spec.js` registers one test case per `.pcap` sample;
- `tests/update_expected.js` creates the golden files that are missing;
- `tests/watch_sample.js` re-runs one sample whenever a `.lua` file changes;
- `tests/run_wireshark.js` starts the Wireshark GUI with every dissector of
  the project root loaded.

The modules follow those files.

| module | file | form |
|---|---|---|
| `Wrappers` | `wrappers.dfy` | `Option`, `Result`, `Outcome` |
| `Text` | `text.dfy` | the JavaScript string operations used (`endsWith`, `indexOf`, `replace` with a string pattern, `split(c)[0]`, last path component, `filter`) |
| `Host` | `host.dfy` | the machine: the platform (win32, darwin or any other), which files exist, and what running a program returns |
| `Naming` | `naming.dfy` | the sample / dissector / golden-file naming convention |
| `CommandLine` | `commandline.dfy` | the tshark/Wireshark options the harness uses, read back from an argument vector |
| `TShark` | `tshark.dfy` | `runTShark.js`, as functions |
| `Compare` | `compare.dfy` | `compare.js`, as functions; the differ is a parameter |
| `TestSamples` | `testsamples.dfy` | the registration loop and the per-case body, as methods with loops |
| `UpdateExpected` | `updateexpected.dfy` | the update loop, as a method proved against a fold `UpdateAll` |
| `WatchSample` | `watchsample.dfy` | startup checks as a function; the watch loop as a class `WatchLoop` whose fields are the script's `debounceTimer`, `isRunning` and `fileModTimes` |
| `RunWireshark` | `runwireshark.dfy` | executable choice as functions; the argument loop and the startup as methods |

The file system appears in the model in three ways:

- as a predicate `fileExists`;
- as a directory listing (`seq<string>`);
- as a `map` from path to content for the sample directory.

Running a program is `Env.exec`, which returns an error, stdout and stderr.
In `UpdateExpected`, `runTshark` itself is a parameter of the context.
Instantiated with `(p, l) => TShark.RunTshark(env, p, l)`, it is the
function of the same name in `TShark`.

The main properties proved:

- The tshark argument vector, read back with the option syntax, selects exactly:
  - read the capture;
  - load the one dissector;
  - detail only its protocol;
  - print the summary and the tree.
- A sample `<key>-<anything>.pcap`, where `key` is non-empty and holds no
  `-`, the name holds no `/`, and `<key>-<anything>` holds no `.pcap`, has:
  - golden file `<key>-<anything>.expected`;
  - dissector `<key>.lua`;
  - protocol `key`.
  Without the `.pcap` condition only the first `.pcap` is replaced
  (`k-a.pcap.pcap` gets `k-a.expected.pcap`); with an empty key the
  protocol is `.lua`.
- `compareOutput` passes exactly when the texts are equal. On a mismatch
  from a correct diff, the message shows at least one `+` or `-` sign.
- A test passes exactly when tshark succeeds, the golden file exists and
  its content equals the report. The suite passes exactly when every case
  does.
- The update script:
  - logs every sample, in order;
  - never changes an existing file;
  - writes only golden files, each holding tshark's report for one of
    its samples;
  - fills every gap whose run and write succeed.
- The watch loop:
  - keeps only the last `.lua` notification of a burst;
  - starts a run exactly when none is in flight and the stat succeeded
    with a time different from the recorded one;
  - never lets two consecutive notifications for the same file, carrying
    the same modification time, both start a run.
- Wireshark's arguments are one `-X lua_script:` pair per dissector, in
  listing order, followed verbatim by the extra arguments. With no
  dissector, the script exits with status 1.

## Model

| member | source | states |
|---|---|---|
| `Text.IndexOf` | tests/update_expected.js:16 | the index returned is the first occurrence of the pattern; None means none occurs (the search behind `String.prototype.replace` with a string pattern) |
| `Text.ReplaceFirst` | tests/update_expected.js:16 | `replace` with a string pattern and a `$`-free replacement (as `.expected` is): without an occurrence the string is unchanged; otherwise exactly the first occurrence is replaced |
| `Text.PrefixBefore` | tests/update_expected.js:26 | `split(sep)[0]` is a prefix free of `sep`, followed by `sep` when shorter than the string |
| `Text.AfterLast` | tests/helpers/runTShark.js:24 | the last component is a `/`-free suffix, preceded by `/` when shorter than the path |
| `Text.WithSuffix` | tests/test_samples.spec.js:11 | an entry is kept exactly when it is in the listing and ends with the suffix |
| `Text.WithSuffixAppend` | tests/test_samples.spec.js:11 | filtering keeps listing order: it distributes over concatenation |
| `Naming.DissectorName` | tests/test_samples.spec.js:18 | the dissector name is the prefix of the file name before the first `-`, and the whole name when there is none |
| `Naming.PcapFileName` | tests/watch_sample.js:16 | the result ends in `.pcap`; a name already ending in `.pcap` is kept, otherwise `.pcap` is appended |
| `Naming.PcapFileNameIdempotent` | tests/watch_sample.js:16 | normalising twice is normalising once |
| `Naming.ExpectedNameReplacesFirst` | tests/update_expected.js:16 | `ExpectedName`: for `<stem>.pcap<rest>` with no `.pcap` in the stem, the golden name is `<stem>.expected<rest>` |
| `Naming.ExpectedNameOfSample` | tests/test_samples.spec.js:14 | `<stem>.pcap` has the golden file `<stem>.expected` |
| `Naming.NoDotNoPcap` | tests/test_samples.spec.js:14 | a stem without `.` contains no `.pcap` |
| `Naming.RepositorySample` | tests/test_samples.spec.js:14-18 | the repository's sample `scte104-init_request.pcap` has dissector name `scte104` and golden file `scte104-init_request.expected` |
| `Naming.ConventionNaming` | tests/test_samples.spec.js:14-18 | when `key` holds no `-` and `<key>-<anything>` holds no `.pcap`, `<key>-<anything>.pcap` has dissector name `key` and golden file `<key>-<anything>.expected` |
| `Naming.DissectorNameWithoutDash` | tests/watch_sample.js:25-26 | `DissectorPath`: without a `-`, the dissector path is the whole file name plus `.lua` |
| `CommandLine.LuaScriptOption` | tests/helpers/runTShark.js:28 | the `-X` argument is `lua_script:` followed by exactly the path |
| `TShark.TsharkPath` | tests/helpers/runTShark.js:6-19 | the Windows install path is chosen exactly on win32 when it exists; otherwise `tshark` |
| `TShark.TsharkPathOfPlatformName` | tests/helpers/runTShark.js:11-15 | from the `process.platform` string: the install path exactly for `win32` when it exists, `tshark` for every other string |
| `TShark.TsharkPathOffWin32` | tests/helpers/runTShark.js:11 | off win32 the result is `tshark` whatever exists |
| `TShark.Basename` | tests/helpers/runTShark.js:24 | the basename is the whole last component: a `/`-free suffix of the path, preceded by `/` when shorter than the path |
| `TShark.ProtocolNameOfBasename` | tests/helpers/runTShark.js:23-24 | `ProtocolName`: the basename, or the basename less a trailing `.lua`; the suffix is removed exactly when the basename ends in `.lua` and is more than `.lua`, or the path is `.lua` itself; a basename `.lua` elsewhere is kept whole |
| `TShark.ProtocolNameOfScript` | tests/helpers/runTShark.js:23-24 | `<dir>/<name>.lua` has protocol name `name` |
| `TShark.BasenameAfterSlash` | tests/helpers/runTShark.js:24 | the basename of `<dir>/<file>` is `file` when `file` has no `/` |
| `TShark.ProtocolOfDissector` | tests/test_samples.spec.js:18-19 | `DissectorPath` through `ProtocolName`: the protocol of a sample's dissector path is the sample's dissector name, when that is not empty |
| `TShark.ProtocolOfEmptyDissectorName` | tests/helpers/runTShark.js:24 | a sample whose name starts with `-` has the empty dissector name and the script `<root>/.lua`, whose protocol name is `.lua` |
| `TShark.TsharkArgsMeaning` | tests/helpers/runTShark.js:26-32 | `TsharkArgs`: the eight arguments select exactly: read this capture, load this one script, detail its protocol, print the summary and the tree |
| `TShark.Settle` | tests/helpers/runTShark.js:36-42 | success exactly without an error, with stdout unchanged; failure message `tshark failed: ` followed by stderr, or by the error's message when stderr is empty |
| `TShark.RunTsharkInvokes` | tests/helpers/runTShark.js:21-44 | `RunTshark`: executes the chosen tshark with eight arguments that select exactly the intended options; resolves with the child's stdout exactly when no error is reported, and otherwise rejects with `tshark failed: ` followed by stderr, or by the error's message when stderr is empty |
| `Compare.Sign` | tests/helpers/compare.js:9 | `+` exactly for an added part, `-` exactly for a removed one that is not added, a space otherwise |
| `Compare.RenderLength` | tests/helpers/compare.js:8-12 | the rendering has one sign character per part plus the part values |
| `Compare.RenderAppend` | tests/helpers/compare.js:12 | `join("")` inserts no separator: rendering distributes over concatenation |
| `Compare.RenderAt` | tests/helpers/compare.js:8-12 | `Render`/`RenderPart`: each part appears as its sign followed by its whole value, after the parts before it |
| `Compare.ContextOnlyDiffIsEqual` | tests/helpers/compare.js:7 | a diff made only of context parts describes equal texts |
| `Compare.MismatchShowsChange` | tests/helpers/compare.js:5-14 | when a correct diff is between different texts, the rendering contains a `+` or `-` sign at the start of some part |
| `Compare.CompareOutput` | tests/helpers/compare.js:4-15 | passes exactly when actual equals expected; otherwise the failure carries both texts and the message is the header followed by the diff from expected to actual |
| `Compare.RenderExample` | tests/helpers/compare.js:7-12 | expected `A\nB\n` against actual `A\nC\n` renders ` A\n-B\n+C\n` |
| `Compare.OneSignPerPart` | tests/helpers/compare.js:9-10 | a part of several lines carries one sign only |
| `TestSamples.CaseForConvention` | tests/test_samples.spec.js:13-19 | `CaseFor`: for a non-empty `key` without `-`, a name without `/` and no `.pcap` in `<key>-<anything>`, the case reads `<key>-<anything>.expected`, loads `<root>/<key>.lua`, and tshark details protocol `key` |
| `TestSamples.RegisterTests` | tests/test_samples.spec.js:11-21 | one case per `.pcap` entry of the listing, in order, each with its derived paths |
| `TestSamples.RunCase` | tests/test_samples.spec.js:21-29 | passes exactly when tshark succeeds, the golden file exists and matches; a tshark rejection, then a missing file, fail first, in that order; when tshark succeeds and the golden file exists but differs, the outcome is a mismatch carrying exactly `compareOutput`'s failure (the header and rendered diff, the actual and the expected text) |
| `TestSamples.RunSuite` | tests/test_samples.spec.js:13-30 | each case has its own outcome, which passes exactly when that case matches; the suite passes exactly when all cases match |
| `UpdateExpected.Step` | tests/update_expected.js:14-40 | skips exactly when the golden file exists; writes tshark's report exactly when it is missing, the run succeeds and the write succeeds; otherwise the directory is unchanged |
| `UpdateExpected.UpdateLogsEverySample` | tests/update_expected.js:13-41 | an error in one sample does not stop the loop: one log entry per sample, in order |
| `UpdateExpected.UpdateNeverOverwrites` | tests/update_expected.js:19-23 | every file that existed keeps its content |
| `UpdateExpected.UpdateWritesOnlyReports` | tests/update_expected.js:15-37 | every new file is the golden file of some sample, was writable, and holds tshark's report for that sample |
| `UpdateExpected.UpdateFillsGaps` | tests/update_expected.js:19-37 | a sample whose run succeeds and whose golden file is writable has a golden file afterwards |
| `UpdateExpected.ProcessSample` | tests/update_expected.js:14-40 | the loop body computes exactly one `Step` |
| `UpdateExpected.UpdateExpectedFiles` | tests/update_expected.js:9-46 | the loop computes the fold `UpdateAll` of `Step` over the `.pcap` entries: one entry each, existing files unchanged, new files hold tshark reports of their samples |
| `WatchSample.Startup` | tests/watch_sample.js:7-31 | usage error exactly without a non-empty argument; success exactly when the argument is present and both the sample and its dissector exist, the session then holding the normalised sample, its path and dissector; a sample-not-found error names exactly the sample path, and a dissector-not-found error names exactly the dissector path and occurs only when the sample exists |
| `WatchSample.StartupChecksSampleFirst` | tests/watch_sample.js:19-31 | with an argument, startup reports the sample missing exactly when it is |
| `WatchSample.Report` | tests/watch_sample.js:39-48 | a run prints the report to stdout, or `Error: ` and the message to stderr |
| `WatchSample.RunTest` | tests/watch_sample.js:33-49 | `runTest` prints tshark's stdout exactly when the child reports no error, and otherwise prints `Error: tshark failed: ` followed by the child's stderr, or by the error's message when stderr is empty, to stderr |
| `WatchSample.OnChange` | tests/watch_sample.js:64-68 | a `.lua` name re-arms the timer for that name; anything else changes nothing; the run flag and the table never change |
| `WatchSample.OnTimer` | tests/watch_sample.js:68-93 | a run starts exactly when none is running, stat succeeded, and the time differs from the recorded one; then only that entry is updated, and otherwise only the timer is cleared |
| `WatchSample.OnSettled` | tests/watch_sample.js:87-89 | a settled run clears the flag and nothing else |
| `WatchSample.LastEventWins` | tests/watch_sample.js:64-68 | after a burst of notifications, the pending timer is the last `.lua` one; flag and table are untouched |
| `WatchSample.LastLuaCons` | tests/watch_sample.js:65-66 | the last `.lua` notification of a burst is in the tail, or else is its head |
| `WatchSample.SameModTimeRunsOnce` | tests/watch_sample.js:70-84 | two consecutive notifications for the same file carrying the same modification time start at most one run, whether or not the first run settled in between (the table is keyed by file name and holds only the last time seen) |
| `WatchSample.WatchLoop.constructor` | tests/watch_sample.js:60-62 | no pending timer, not running, empty modification table |
| `WatchSample.WatchLoop.OnWatchEvent` | tests/watch_sample.js:64-68 | the fields change as `OnChange` says |
| `WatchSample.WatchLoop.OnDebounceTimer` | tests/watch_sample.js:68-93 | the fields change, and a run is reported started, as `OnTimer` says |
| `WatchSample.WatchLoop.OnRunSettled` | tests/watch_sample.js:87-89 | only while a run is in flight: the fields change as `OnSettled` says, and the printed text is what `runTest` prints for the session's sample |
| `RunWireshark.FirstExisting` | tests/run_wireshark.js:26-30 | the result is the first listed path that exists; None exactly when none exists |
| `RunWireshark.WiresharkPath` | tests/run_wireshark.js:8-37 | the result is `wireshark`, the Windows install path or one of the two macOS locations; any other than `wireshark` exists, and is chosen only on its own platform |
| `RunWireshark.WiresharkPathOnWin32` | tests/run_wireshark.js:12-18 | the Windows install path exactly when it exists, else `wireshark` |
| `RunWireshark.WiresharkPathOnDarwin` | tests/run_wireshark.js:20-31 | the application bundle, else `/usr/local/bin/wireshark`, else `wireshark`, in that order |
| `RunWireshark.WiresharkPathElsewhere` | tests/run_wireshark.js:33-35 | `wireshark` on any other platform |
| `Host.PlatformOf` | tests/run_wireshark.js:11-33 | a `process.platform` string is win32 exactly for `"win32"` and darwin exactly for `"darwin"`; every other value is one platform |
| `RunWireshark.LuaFiles` | tests/run_wireshark.js:41-43 | one path per `.lua` entry of the listing, in order, joined to the root |
| `RunWireshark.AdditionalArgs` | tests/run_wireshark.js:59 | the arguments after the first two, none otherwise |
| `RunWireshark.BuildArgs` | tests/run_wireshark.js:51-60 | a `-X lua_script:<path>` pair per dissector, in order, followed by the extra arguments verbatim |
| `RunWireshark.ScriptPairsLoad` | tests/run_wireshark.js:54-56 | read back, those pairs load exactly the dissectors, in order |
| `RunWireshark.Prepare` | tests/run_wireshark.js:41-73 | exits with 1 exactly when there is no dissector; otherwise spawns the chosen Wireshark with all dissectors loaded and the extra arguments at the end |
| `RunWireshark.ExitStatus` | tests/run_wireshark.js:75-83 | a failed start exits with 1; an exit passes its code through, with null and 0 giving 0 |

## Left out

- Process I/O is not modelled: console output, `console.clear`, the banner lines and the timestamp of a change message. Only what `runTest` prints (`WatchSample.Report`) is kept.
- Child processes are abstract. `execFile`'s `maxBuffer` of 50 000 000 bytes is part of what `Env.exec` returns; overflowing it is an error like any other.
- `spawn` with inherited stdio and the GUI process itself are reduced to `RunWireshark.Launch` and `RunWireshark.ChildEvent`.
- Timing is not modelled: `fs.watch`, `setTimeout` and the 500 ms debounce are events. `OnWatchEvent` re-arms the timer (`clearTimeout` and then `setTimeout`) and `OnDebounceTimer` is the timer firing. How long a run takes is an ordering, `OnRunSettled`.
- The initial `await runTest()` of the watch script is `WatchSample.RunTest`. The class constructor is the state after it.
- Modification times (`mtimeMs`, a float) are integers, compared only for equality.
- A `statSync` that throws is `None`.
- The `diffLines` algorithm of the `diff` package is a parameter of type `Compare.Differ`. Only the rendering of its parts is modelled, together with a notion of a correct diff (`Compare.IsDiff`).
- chai's own message layout around the text passed to `expect` is not modelled. `Compare.Mismatch` carries that text and the two values.
- mocha's machinery is not modelled (the 10-second timeout, reporters, asynchronous scheduling). `TestSamples.RunSuite` runs the cases in order.
- `readFileSync` on a missing golden file is an `ExpectedMissing` failure. Other read errors and non-UTF-8 content are not modelled.
- `readdirSync` failing on the samples directory or the project root is a fatal error that ends the script. The model takes the listing as given.
- For `update_expected.js`, the fatal handler (`process.exit(1)`) is not modelled.
- Paths follow POSIX only. `path.join` and `path.resolve` are joining with `/` onto a given root, so normalisation of `..`, `.` and duplicate separators is not modelled.
- `path.basename` is the text after the last `/`. Windows separators and the stripping of trailing separators are not modelled.
- A missing and an empty watch argument are treated alike, as JavaScript's `!sampleName` does; other falsy values cannot occur in `process.argv`.
- `UpdateExpected.UpdateExpectedFiles`: `writeFileSync` is the predicate `canWrite`. A write either fully succeeds or leaves the directory unchanged, so partial writes are not modelled.
