/** tests/watch_sample.js: resolve one sample and its dissector, run it
    once, then re-run it whenever a ".lua" file of the project root changes,
    with a debounce timer, a guard against overlapping runs and a table of
    the last modification time seen per file name.

    The timer is an explicit pair of events: `OnWatchEvent` (re)arms it and
    `OnDebounceTimer` is its firing. A modification time (a float in the
    source) is an opaque value compared only for equality. */
module WatchSample {
  import opened Wrappers
  import opened Text
  import opened Host
  import opened Naming
  import opened TShark

  /** The sample and dissector the script settles on at startup. */
  datatype Session = Session(pcapFile: string, pcapPath: string, dissectorName: string, luaDissector: string)

  /** The reasons the script exits with status 1 before any run. */
  datatype StartupError = Usage | SampleNotFound(path: string) | DissectorNotFound(path: string)

  /** The checks before the first run: the argument `process.argv[2]` must
      be present and non-empty, the sample file `tests/samples/<pcapFile>`
      must exist, and then so must its dissector `<dissectorName>.lua`.
      Each not-found error names the path that was checked. */
  function Startup(argv: seq<string>, root: string, fileExists: string -> bool): (r: Result<Session, StartupError>)
    ensures r == Failure(Usage) <==> |argv| < 3 || argv[2] == ""
    ensures r.Success? <==>
      |argv| >= 3 && argv[2] != ""
      && fileExists(Join(SamplesDir(root), PcapFileName(argv[2])))
      && fileExists(Join(root, DissectorName(PcapFileName(argv[2])) + LuaExt))
    ensures r.Success? ==> r.value.pcapFile == PcapFileName(argv[2]) && EndsWith(r.value.pcapFile, PcapExt)
    ensures r.Success? ==> r.value.pcapPath == Join(SamplesDir(root), r.value.pcapFile) && fileExists(r.value.pcapPath)
    ensures r.Success? ==> r.value.dissectorName == DissectorName(r.value.pcapFile)
    ensures r.Success? ==> r.value.luaDissector == Join(root, r.value.dissectorName + LuaExt) && fileExists(r.value.luaDissector)
    ensures r.Failure? && r.error.SampleNotFound? ==>
      |argv| >= 3 && argv[2] != "" && r.error.path == Join(SamplesDir(root), PcapFileName(argv[2]))
      && !fileExists(r.error.path)
    ensures r.Failure? && r.error.DissectorNotFound? ==>
      |argv| >= 3 && argv[2] != "" && fileExists(Join(SamplesDir(root), PcapFileName(argv[2])))
      && r.error.path == Join(root, DissectorName(PcapFileName(argv[2])) + LuaExt)
      && !fileExists(r.error.path)
  {
    if |argv| < 3 || argv[2] == "" then Failure(Usage)
    else
      var sampleName := argv[2];
      var pcapFile := PcapFileName(sampleName);
      var pcapPath := Join(SamplesDir(root), pcapFile);
      if !fileExists(pcapPath) then Failure(SampleNotFound(pcapPath))
      else
        var dissectorName := DissectorName(pcapFile);
        var luaDissector := Join(root, dissectorName + LuaExt);
        if !fileExists(luaDissector) then Failure(DissectorNotFound(luaDissector))
        else Success(Session(pcapFile, pcapPath, dissectorName, luaDissector))
  }

  /** The sample's dissector is checked only once the sample itself exists. */
  lemma StartupChecksSampleFirst(argv: seq<string>, root: string, fileExists: string -> bool)
    requires |argv| >= 3 && argv[2] != ""
    ensures var pcapPath := Join(SamplesDir(root), PcapFileName(argv[2]));
            Startup(argv, root, fileExists) == Failure(SampleNotFound(pcapPath)) <==> !fileExists(pcapPath)
  {
  }

  /** What `runTest` prints: the report, or the caught error. */
  datatype Printed = Stdout(text: string) | Stderr(text: string)

  function Report(result: Result<string, string>): (p: Printed)
    ensures result.Success? ==> p == Stdout(result.value)
    ensures result.Failure? ==> p == Stderr("Error: " + result.error)
  {
    match result
    case Success(output) => Stdout(output)
    case Failure(message) => Stderr("Error: " + message)
  }

  /** `runTest()` as one run of tshark on the session's sample: stdout gets
      tshark's stdout when it exits cleanly, otherwise stderr gets the
      rejection message. */
  function RunTest(session: Session, env: Env): (p: Printed)
    ensures var x := env.exec(TsharkPath(env.platform, env.fileExists), TsharkArgs(session.pcapPath, session.luaDissector));
            (p.Stdout? <==> x.err.None?)
            && (p.Stdout? ==> p.text == x.stdout)
            && (p.Stderr? ==> p.text == "Error: tshark failed: " + (if x.stderr != "" then x.stderr else x.err.value))
  {
    Report(RunTshark(env, session.pcapPath, session.luaDissector))
  }

  /** The watch loop's state: the file name the armed debounce timer will
      check (None when no timer is pending), the `isRunning` flag and the
      `fileModTimes` table. */
  datatype WatchState = WatchState(pending: Option<string>, isRunning: bool, modTimes: map<string, int>)

  const Initial := WatchState(None, false, map[])

  /** A change notification: a ".lua" file name cancels the pending timer and
      arms a new one for that name; anything else is ignored. Neither touches
      the run flag or the table. */
  function OnChange(s: WatchState, filename: Option<string>): (r: WatchState)
    ensures r.isRunning == s.isRunning && r.modTimes == s.modTimes
    ensures filename.Some? && EndsWith(filename.value, LuaExt) ==> r.pending == filename
    ensures !(filename.Some? && EndsWith(filename.value, LuaExt)) ==> r == s
  {
    if filename.Some? && EndsWith(filename.value, LuaExt) then s.(pending := filename) else s
  }

  /** The debounce timer fires with the stat result of its file (None when
      `statSync` throws). A run starts exactly when none is in flight, the
      stat succeeded, and the time differs from the one recorded for that
      name; then only that name's entry changes. Otherwise nothing changes. */
  function OnTimer(s: WatchState, stat: Option<int>): (r: (WatchState, bool))
    requires s.pending.Some?
    ensures r.1 <==> !s.isRunning && stat.Some?
                     && !(s.pending.value in s.modTimes && s.modTimes[s.pending.value] == stat.value)
    ensures r.1 ==> r.0 == WatchState(None, true, s.modTimes[s.pending.value := stat.value])
    ensures !r.1 ==> r.0 == s.(pending := None)
  {
    var filename := s.pending.value;
    var fired := s.(pending := None);
    if s.isRunning then (fired, false)
    else
      match stat
      case None => (fired, false)
      case Some(modTime) =>
        var lastModTime := if filename in s.modTimes then Some(s.modTimes[filename]) else None;
        if lastModTime == Some(modTime) then (fired, false)
        else (fired.(modTimes := s.modTimes[filename := modTime], isRunning := true), true)
  }

  /** The `finally` of a run, whether it succeeded or failed. */
  function OnSettled(s: WatchState): (r: WatchState)
    ensures !r.isRunning && r.pending == s.pending && r.modTimes == s.modTimes
  {
    s.(isRunning := false)
  }

  /** A burst of change notifications, in order. */
  function Burst(s: WatchState, filenames: seq<Option<string>>): WatchState
    decreases |filenames|
  {
    if filenames == [] then s else Burst(OnChange(s, filenames[0]), filenames[1..])
  }

  /** The last ".lua" file name of `filenames`, if any. */
  function LastLua(filenames: seq<Option<string>>): Option<string> {
    if filenames == [] then None
    else
      var last := filenames[|filenames| - 1];
      if last.Some? && EndsWith(last.value, LuaExt) then last else LastLua(filenames[..|filenames| - 1])
  }

  /** After a burst, the one pending timer is the one armed by the last ".lua"
      notification (or the earlier one if the burst had none), and the run
      flag and the table are untouched. */
  lemma {:induction false} LastEventWins(s: WatchState, filenames: seq<Option<string>>)
    ensures Burst(s, filenames).pending == if LastLua(filenames).Some? then LastLua(filenames) else s.pending
    ensures Burst(s, filenames).isRunning == s.isRunning && Burst(s, filenames).modTimes == s.modTimes
    decreases |filenames|
  {
    if filenames != [] {
      var rest := filenames[1..];
      LastEventWins(OnChange(s, filenames[0]), rest);
      LastLuaCons(filenames[0], rest);
      assert [filenames[0]] + rest == filenames;
    }
  }

  lemma {:induction false} LastLuaCons(first: Option<string>, rest: seq<Option<string>>)
    ensures LastLua([first] + rest) ==
      if LastLua(rest).Some? then LastLua(rest)
      else if first.Some? && EndsWith(first.value, LuaExt) then first else None
    decreases |rest|
  {
    var all := [first] + rest;
    if rest == [] {
      assert all[..0] == [];
    } else {
      assert all[..|all| - 1] == [first] + rest[..|rest| - 1];
      LastLuaCons(first, rest[..|rest| - 1]);
    }
  }

  /** Two consecutive notifications for one file carrying the same modification time
      start at most one run: after a run starts, the second is dropped while
      that run is in flight, and matches the recorded time once it settled. */
  lemma SameModTimeRunsOnce(s: WatchState, filename: string, modTime: int, settledBetween: bool)
    requires EndsWith(filename, LuaExt)
    ensures
      var (s1, first) := OnTimer(OnChange(s, Some(filename)), Some(modTime));
      var s2 := if settledBetween then OnSettled(s1) else s1;
      var (_, second) := OnTimer(OnChange(s2, Some(filename)), Some(modTime));
      !(first && second)
  {
  }

  /** The watch loop, owned by one session. */
  class WatchLoop {
    const session: Session
    var debounceTimer: Option<string>
    var isRunning: bool
    var fileModTimes: map<string, int>

    function State(): WatchState
      reads this
    {
      WatchState(debounceTimer, isRunning, fileModTimes)
    }

    /** The loop as it starts watching, after the initial run. */
    constructor (session: Session)
      ensures this.session == session && State() == Initial
    {
      this.session := session;
      debounceTimer := None;
      isRunning := false;
      fileModTimes := map[];
    }

    /** The `fs.watch` callback. */
    method OnWatchEvent(filename: Option<string>)
      modifies this
      ensures State() == OnChange(old(State()), filename)
    {
      if filename.Some? && EndsWith(filename.value, LuaExt) {
        debounceTimer := filename;
      }
    }

    /** The debounce timer's callback; `started` says that a run began. */
    method OnDebounceTimer(stat: Option<int>) returns (started: bool)
      requires debounceTimer.Some?
      modifies this
      ensures (State(), started) == OnTimer(old(State()), stat)
    {
      var filename := debounceTimer.value;
      debounceTimer := None;
      if isRunning {
        return false;
      }
      if stat.None? {
        return false;
      }
      var modTime := stat.value;
      var lastModTime := if filename in fileModTimes then Some(fileModTimes[filename]) else None;
      if lastModTime == Some(modTime) {
        return false;
      }
      fileModTimes := fileModTimes[filename := modTime];
      isRunning := true;
      started := true;
    }

    /** A run of the session's sample settles: its report or error is
        printed and the flag cleared (the `finally`). */
    method OnRunSettled(env: Env) returns (printed: Printed)
      requires isRunning
      modifies this
      ensures State() == OnSettled(old(State()))
      ensures printed == RunTest(session, env)
    {
      var output := RunTshark(env, session.pcapPath, session.luaDissector);
      printed := Report(output);
      isRunning := false;
    }
  }
}
