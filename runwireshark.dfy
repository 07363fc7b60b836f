/** tests/run_wireshark.js: start Wireshark with every Lua dissector of the
    project root loaded and any further arguments passed through. */
module RunWireshark {
  import opened Wrappers
  import opened Text
  import opened Host
  import opened CommandLine
  import Naming

  const DefaultWireshark := "wireshark"
  const Win32Wireshark := "C:\\Program Files\\Wireshark\\Wireshark.exe"
  const MacPaths := ["/Applications/Wireshark.app/Contents/MacOS/Wireshark", "/usr/local/bin/wireshark"]

  /** The first entry of `paths`, in order, that exists. */
  function FirstExisting(paths: seq<string>, fileExists: string -> bool): (r: Option<string>)
    ensures r.Some? ==> exists i :: 0 <= i < |paths| && paths[i] == r.value && fileExists(r.value)
                                    && forall j :: 0 <= j < i ==> !fileExists(paths[j])
    ensures r.None? <==> forall i :: 0 <= i < |paths| ==> !fileExists(paths[i])
  {
    if paths == [] then None
    else if fileExists(paths[0]) then Some(paths[0])
    else
      var r := FirstExisting(paths[1..], fileExists);
      assert r.Some? ==> exists i :: 1 <= i < |paths| && paths[i] == r.value && fileExists(r.value)
                                     && forall j :: 0 <= j < i ==> !fileExists(paths[j]) by {
        if r.Some? {
          var i :| 0 <= i < |paths[1..]| && paths[1..][i] == r.value && fileExists(r.value)
                   && forall j :: 0 <= j < i ==> !fileExists(paths[1..][j]);
          assert forall j :: 1 <= j < i + 1 ==> paths[j] == paths[1..][j - 1];
        }
      }
      assert r.None? ==> forall i :: 1 <= i < |paths| ==> !fileExists(paths[i]) by {
        assert forall i :: 1 <= i < |paths| ==> paths[i] == paths[1..][i - 1];
      }
      r
  }

  /** `getWiresharkPath()`. */
  function WiresharkPath(platform: Platform, fileExists: string -> bool): (r: string)
    ensures r == DefaultWireshark || r == Win32Wireshark || r in MacPaths
    ensures r != DefaultWireshark ==> fileExists(r)
    ensures r == Win32Wireshark ==> platform == Win32
    ensures r in MacPaths ==> platform == Darwin
  {
    match platform
    case Win32 => if fileExists(Win32Wireshark) then Win32Wireshark else DefaultWireshark
    case Darwin =>
      (match FirstExisting(MacPaths, fileExists)
       case Some(p) => p
       case None => DefaultWireshark)
    case Other => DefaultWireshark
  }

  /** On win32 the install path is used when it exists, else "wireshark". */
  lemma WiresharkPathOnWin32(fileExists: string -> bool)
    ensures WiresharkPath(Win32, fileExists) == Win32Wireshark <==> fileExists(Win32Wireshark)
    ensures WiresharkPath(Win32, fileExists) != Win32Wireshark ==> WiresharkPath(Win32, fileExists) == DefaultWireshark
  {
  }

  /** On darwin the first existing entry of the two known locations is used,
      in list order; with neither present, "wireshark". */
  lemma WiresharkPathOnDarwin(fileExists: string -> bool)
    ensures fileExists(MacPaths[0]) ==> WiresharkPath(Darwin, fileExists) == MacPaths[0]
    ensures !fileExists(MacPaths[0]) && fileExists(MacPaths[1]) ==> WiresharkPath(Darwin, fileExists) == MacPaths[1]
    ensures !fileExists(MacPaths[0]) && !fileExists(MacPaths[1]) ==> WiresharkPath(Darwin, fileExists) == DefaultWireshark
  {
    var r := FirstExisting(MacPaths, fileExists);
    if r.Some? {
      var i :| 0 <= i < |MacPaths| && MacPaths[i] == r.value && fileExists(r.value)
               && forall j :: 0 <= j < i ==> !fileExists(MacPaths[j]);
      assert i == 0 || i == 1;
    }
  }

  /** On every other platform nothing is probed. */
  lemma WiresharkPathElsewhere(fileExists: string -> bool)
    ensures WiresharkPath(Other, fileExists) == DefaultWireshark
  {
  }

  /** The ".lua" entries of the root listing, in order, joined to the root. */
  function LuaFiles(root: string, listing: seq<string>): (r: seq<string>)
    ensures |r| == |WithSuffix(listing, Naming.LuaExt)|
    ensures forall i :: 0 <= i < |r| ==> r[i] == Naming.Join(root, WithSuffix(listing, Naming.LuaExt)[i])
  {
    var lua := WithSuffix(listing, Naming.LuaExt);
    seq(|lua|, i requires 0 <= i < |lua| => Naming.Join(root, lua[i]))
  }

  /** `process.argv.slice(2)`. */
  function AdditionalArgs(argv: seq<string>): (r: seq<string>)
    ensures |argv| >= 2 ==> argv == argv[..2] + r
    ensures |argv| < 2 ==> r == []
  {
    if |argv| < 2 then [] else argv[2..]
  }

  /** The argument loop: a `-X lua_script:<path>` pair per dissector, in
      order, then the additional arguments verbatim. */
  method BuildArgs(luaFiles: seq<string>, additionalArgs: seq<string>) returns (args: seq<string>)
    ensures |args| == 2 * |luaFiles| + |additionalArgs|
    ensures forall i :: 0 <= i < |luaFiles| ==> args[2 * i] == "-X" && args[2 * i + 1] == LuaScriptOption(luaFiles[i])
    ensures args[2 * |luaFiles|..] == additionalArgs
  {
    args := [];
    for k := 0 to |luaFiles|
      invariant |args| == 2 * k
      invariant forall i :: 0 <= i < k ==> args[2 * i] == "-X" && args[2 * i + 1] == LuaScriptOption(luaFiles[i])
    {
      args := args + ["-X", LuaScriptOption(luaFiles[k])];
    }
    args := args + additionalArgs;
  }

  /** Read back, the dissector pairs of an argument vector built as above
      load exactly the given scripts, in order. */
  lemma {:induction false} ScriptPairsLoad(luaFiles: seq<string>, args: seq<string>, acc: Options)
    requires |args| == 2 * |luaFiles|
    requires forall i :: 0 <= i < |luaFiles| ==> args[2 * i] == "-X" && args[2 * i + 1] == LuaScriptOption(luaFiles[i])
    ensures ReadOptions(args, acc) == Some(acc.(luaScripts := acc.luaScripts + luaFiles))
    decreases |luaFiles|
  {
    if luaFiles == [] {
      assert acc.luaScripts + luaFiles == acc.luaScripts;
    } else {
      assert args[0] == "-X" && args[1] == LuaScriptOption(luaFiles[0]);
      var acc' := acc.(luaScripts := acc.luaScripts + [luaFiles[0]]);
      forall i | 0 <= i < |luaFiles[1..]|
        ensures args[2..][2 * i] == "-X" && args[2..][2 * i + 1] == LuaScriptOption(luaFiles[1..][i])
      {
        assert args[2 * (i + 1)] == "-X" && args[2 * (i + 1) + 1] == LuaScriptOption(luaFiles[i + 1]);
      }
      ScriptPairsLoad(luaFiles[1..], args[2..], acc');
      assert acc'.luaScripts + luaFiles[1..] == acc.luaScripts + luaFiles;
    }
  }

  /** What the script does before any child process exists. */
  datatype Launch = Abort(exitCode: int) | Spawn(executable: string, args: seq<string>)

  /** The script up to the `spawn` call: with no dissectors it exits with
      status 1 before building arguments; otherwise it starts Wireshark with
      every dissector loaded and the extra arguments appended. */
  method Prepare(env: Env, root: string, listing: seq<string>, argv: seq<string>) returns (launch: Launch)
    ensures launch.Abort? <==> WithSuffix(listing, Naming.LuaExt) == []
    ensures launch.Abort? ==> launch.exitCode == 1
    ensures launch.Spawn? ==> launch.executable == WiresharkPath(env.platform, env.fileExists)
    ensures launch.Spawn? ==> |launch.args| == 2 * |LuaFiles(root, listing)| + |AdditionalArgs(argv)|
    ensures launch.Spawn? ==> ReadOptions(launch.args[..2 * |LuaFiles(root, listing)|], NoOptions)
                              == Some(NoOptions.(luaScripts := LuaFiles(root, listing)))
    ensures launch.Spawn? ==> launch.args[2 * |LuaFiles(root, listing)|..] == AdditionalArgs(argv)
  {
    var luaFiles := LuaFiles(root, listing);
    if |luaFiles| == 0 {
      return Abort(1);
    }
    var args := BuildArgs(luaFiles, AdditionalArgs(argv));
    var wiresharkPath := WiresharkPath(env.platform, env.fileExists);
    var pairs := args[..2 * |luaFiles|];
    assert forall i :: 0 <= i < |luaFiles| ==> pairs[2 * i] == args[2 * i] && pairs[2 * i + 1] == args[2 * i + 1];
    ScriptPairsLoad(luaFiles, pairs, NoOptions);
    assert NoOptions.luaScripts + luaFiles == luaFiles;
    launch := Spawn(wiresharkPath, args);
  }

  /** How the child process ends: it could not be started, or it exited
      with a code (null when it was killed by a signal). */
  datatype ChildEvent = SpawnFailed(message: string) | Exited(code: Option<int>)

  /** The script's own exit status: 1 when Wireshark could not be started,
      otherwise `code || 0`. */
  function ExitStatus(event: ChildEvent): (status: int)
    ensures event.SpawnFailed? ==> status == 1
    ensures event.Exited? ==> (status == 0 <==> event.code == None || event.code == Some(0))
    ensures event.Exited? && event.code.Some? ==> status == event.code.value
  {
    match event
    case SpawnFailed(_) => 1
    case Exited(code) => if code.None? || code.value == 0 then 0 else code.value
  }
}
