/** tests/helpers/runTShark.js: choosing the tshark executable, deriving
    the protocol name, building tshark's argument vector and settling the
    promise from `execFile`'s callback. */
module TShark {
  import opened Wrappers
  import opened Text
  import opened Host
  import opened CommandLine
  import Naming

  const DefaultTshark := "tshark"
  const Win32Tshark := "C:\\Program Files\\Wireshark\\tshark.exe"

  /** `getTsharkPath()`: the fixed install path on win32 when it exists,
      otherwise the bare name looked up on the search path. */
  function TsharkPath(platform: Platform, fileExists: string -> bool): (r: string)
    ensures r == Win32Tshark <==> platform == Win32 && fileExists(Win32Tshark)
    ensures r != Win32Tshark ==> r == DefaultTshark
  {
    if platform == Win32 && fileExists(Win32Tshark) then Win32Tshark else DefaultTshark
  }

  /** Selected from the `process.platform` string: the install path is
      chosen exactly for "win32" when it exists. */
  lemma TsharkPathOfPlatformName(name: string, fileExists: string -> bool)
    ensures TsharkPath(PlatformOf(name), fileExists) == Win32Tshark <==> name == "win32" && fileExists(Win32Tshark)
    ensures name != "win32" ==> TsharkPath(PlatformOf(name), fileExists) == DefaultTshark
  {
  }

  /** Off win32 the install path is never probed and the result is "tshark". */
  lemma TsharkPathOffWin32(platform: Platform, fileExists: string -> bool)
    requires platform != Win32
    ensures TsharkPath(platform, fileExists) == DefaultTshark
  {
  }

  /** The last path component (POSIX separator). */
  function Basename(path: string): (r: string)
    ensures '/' !in r && EndsWith(path, r)
    ensures |r| < |path| ==> path[|path| - |r| - 1] == '/'
  {
    AfterLast(path, '/')
  }

  /** `path.basename(lua, ".lua")`: the last component with a trailing ".lua"
      removed, except that a component that IS ".lua" is kept whole and the
      path ".lua" itself gives "". */
  function ProtocolName(lua: string): string {
    if lua == Naming.LuaExt then ""
    else
      var b := Basename(lua);
      if EndsWith(b, Naming.LuaExt) && b != Naming.LuaExt then b[..|b| - |Naming.LuaExt|] else b
  }

  /** The protocol name is the basename, or the basename less a trailing
      ".lua"; the suffix is removed exactly when the basename ends in ".lua"
      and is more than ".lua", or the path is ".lua" itself. */
  lemma ProtocolNameOfBasename(lua: string)
    ensures ProtocolName(lua) == Basename(lua) || ProtocolName(lua) + Naming.LuaExt == Basename(lua)
    ensures EndsWith(Basename(lua), Naming.LuaExt) && Basename(lua) != Naming.LuaExt
            ==> ProtocolName(lua) + Naming.LuaExt == Basename(lua)
    ensures !EndsWith(Basename(lua), Naming.LuaExt) ==> ProtocolName(lua) == Basename(lua)
    ensures Basename(lua) == Naming.LuaExt ==> ProtocolName(lua) == if lua == Naming.LuaExt then "" else Naming.LuaExt
  {
    var b := Basename(lua);
    if lua == Naming.LuaExt {
      assert b == Naming.LuaExt;
    } else if EndsWith(b, Naming.LuaExt) && b != Naming.LuaExt {
      assert b[..|b| - 4] + Naming.LuaExt == b;
    }
  }

  /** `/x/scte104.lua` names the protocol `scte104`. */
  lemma {:induction false} ProtocolNameOfScript(dir: string, name: string)
    requires '/' !in name && name != ""
    ensures ProtocolName(dir + "/" + name + Naming.LuaExt) == name
  {
    var lua := dir + "/" + name + Naming.LuaExt;
    var file := name + Naming.LuaExt;
    assert lua == (dir + "/") + file;
    assert '/' !in file;
    BasenameAfterSlash(dir, file);
    assert file[..|file| - 4] == name;
  }

  lemma {:induction false} BasenameAfterSlash(dir: string, file: string)
    requires '/' !in file
    ensures Basename(dir + "/" + file) == file
  {
    var p := dir + "/" + file;
    var r := Basename(p);
    assert p[|p| - |file|..] == file;
    assert p[|p| - |file| - 1] == '/';
  }

  /** The dissector a sample resolves to names, as tshark protocol, the
      sample's dissector name, provided that name is not empty. */
  lemma ProtocolOfDissector(root: string, pcap: string)
    requires '/' !in pcap && Naming.DissectorName(pcap) != ""
    ensures ProtocolName(Naming.DissectorPath(root, pcap)) == Naming.DissectorName(pcap)
  {
    var key := Naming.DissectorName(pcap);
    assert key == pcap[..|key|];
    assert '/' !in key by {
      forall k | 0 <= k < |key| ensures key[k] != '/' { assert key[k] == pcap[k]; }
    }
    assert Naming.DissectorPath(root, pcap) == root + "/" + key + Naming.LuaExt;
    ProtocolNameOfScript(root, key);
  }

  /** A sample whose name starts with "-" has the empty dissector name; its
      script path is `<root>/.lua`, and the protocol name is ".lua" itself. */
  lemma ProtocolOfEmptyDissectorName(root: string, pcap: string)
    requires pcap != "" && pcap[0] == '-'
    ensures Naming.DissectorName(pcap) == ""
    ensures Naming.DissectorPath(root, pcap) == Naming.Join(root, Naming.LuaExt)
    ensures ProtocolName(Naming.DissectorPath(root, pcap)) == Naming.LuaExt
  {
    assert Naming.DissectorName(pcap) == "";
    assert "" + Naming.LuaExt == Naming.LuaExt;
    BasenameAfterSlash(root, Naming.LuaExt);
  }

  /** The tshark invocation: read the capture, load the dissector, show
      details only of its protocol, print summary and details tree. */
  function TsharkArgs(pcap: string, lua: string): seq<string> {
    ["-r", pcap, "-X", LuaScriptOption(lua), "-O", ProtocolName(lua), "-P", "-V"]
  }

  /** The argument vector has the eight elements above and selects exactly
      the intended options. */
  lemma TsharkArgsMeaning(pcap: string, lua: string)
    ensures |TsharkArgs(pcap, lua)| == 8
    ensures ReadOptions(TsharkArgs(pcap, lua), NoOptions)
         == Some(Options(Some(pcap), [lua], Some(ProtocolName(lua)), true, true))
  {
    var a := TsharkArgs(pcap, lua);
    var o1 := NoOptions.(readFile := Some(pcap));
    var o2 := o1.(luaScripts := [lua]);
    var o3 := o2.(detailProtocols := Some(ProtocolName(lua)));
    var o4 := o3.(printSummary := true);
    var o5 := o4.(printDetails := true);
    assert a[8..] == [];
    assert ReadOptions(a[7..], o4) == ReadOptions(a[8..], o5);
    assert ReadOptions(a[6..], o3) == ReadOptions(a[7..], o4) by { assert a[6..][1..] == a[7..]; }
    assert ReadOptions(a[4..], o2) == ReadOptions(a[6..], o3) by { assert a[4..][2..] == a[6..]; }
    assert ReadOptions(a[2..], o1) == ReadOptions(a[4..], o2) by {
      assert a[2..][2..] == a[4..];
      assert a[2..][1] == LuaScriptOption(lua);
      assert a[2..][1][|LuaScriptPrefix|..] == lua;
      assert o1.luaScripts + [lua] == [lua];
    }
    assert ReadOptions(a, NoOptions) == ReadOptions(a[2..], o1);
  }

  /** The callback of `execFile`: reject with "tshark failed: " and stderr
      (or the error's message when stderr is empty), else resolve with stdout. */
  function Settle(x: ExecResult): (r: Result<string, string>)
    ensures r.Success? <==> x.err.None?
    ensures r.Success? ==> r.value == x.stdout
    ensures r.Failure? ==> StartsWith(r.error, "tshark failed: ")
    ensures r.Failure? && x.stderr != "" ==> r.error[15..] == x.stderr
    ensures r.Failure? && x.stderr == "" ==> r.error[15..] == x.err.value
  {
    match x.err
    case Some(message) => Failure("tshark failed: " + (if x.stderr != "" then x.stderr else message))
    case None => Success(x.stdout)
  }

  /** `runTshark({ pcap, lua })`. */
  function RunTshark(env: Env, pcap: string, lua: string): Result<string, string> {
    var tsharkPath := TsharkPath(env.platform, env.fileExists);
    Settle(env.exec(tsharkPath, TsharkArgs(pcap, lua)))
  }

  /** `runTshark` end to end: it executes the chosen tshark with an
      argument vector that selects exactly the intended options, resolves
      with the child's stdout when `execFile` reports no error, and rejects
      with "tshark failed: " and stderr (or the error's message when stderr
      is empty) otherwise. */
  lemma RunTsharkInvokes(env: Env, pcap: string, lua: string)
    ensures exists args ::
      ReadOptions(args, NoOptions) == Some(Options(Some(pcap), [lua], Some(ProtocolName(lua)), true, true))
      && |args| == 8
      && var x := env.exec(TsharkPath(env.platform, env.fileExists), args);
         (RunTshark(env, pcap, lua).Success? <==> x.err.None?)
         && (x.err.None? ==> RunTshark(env, pcap, lua).value == x.stdout)
         && (x.err.Some? ==> RunTshark(env, pcap, lua).error
                             == "tshark failed: " + (if x.stderr != "" then x.stderr else x.err.value))
  {
    var args := TsharkArgs(pcap, lua);
    TsharkArgsMeaning(pcap, lua);
    var x := env.exec(TsharkPath(env.platform, env.fileExists), args);
    assert RunTshark(env, pcap, lua) == Settle(x);
  }
}
