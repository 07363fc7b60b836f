/** The part of the tshark/Wireshark command-line syntax the harness uses,
    read back into the options it selects. This is the meaning the harness
    relies on when it builds an argument vector. */
module CommandLine {
  import opened Wrappers
  import opened Text

  const LuaScriptPrefix := "lua_script:"

  /** `-r <file>` read a capture, `-X lua_script:<path>` load a Lua
      dissector, `-O <protocols>` show details only of these protocols,
      `-P` print the packet summary, `-V` print the packet details tree. */
  datatype Options = Options(
    readFile: Option<string>,
    luaScripts: seq<string>,
    detailProtocols: Option<string>,
    printSummary: bool,
    printDetails: bool)

  const NoOptions := Options(None, [], None, false, false)

  /** The `-X` argument that loads the Lua script at `path`. */
  function LuaScriptOption(path: string): (r: string)
    ensures StartsWith(r, LuaScriptPrefix) && r[|LuaScriptPrefix|..] == path
  {
    LuaScriptPrefix + path
  }

  /** Reads `argv` from left to right into `acc`; None when an option is
      unknown, lacks its argument, or is an `-X` other than `lua_script:`. */
  function ReadOptions(argv: seq<string>, acc: Options): Option<Options>
    decreases |argv|
  {
    if argv == [] then Some(acc)
    else if argv[0] == "-P" then ReadOptions(argv[1..], acc.(printSummary := true))
    else if argv[0] == "-V" then ReadOptions(argv[1..], acc.(printDetails := true))
    else if |argv| < 2 then None
    else if argv[0] == "-r" then ReadOptions(argv[2..], acc.(readFile := Some(argv[1])))
    else if argv[0] == "-O" then ReadOptions(argv[2..], acc.(detailProtocols := Some(argv[1])))
    else if argv[0] == "-X" && StartsWith(argv[1], LuaScriptPrefix) then
      ReadOptions(argv[2..], acc.(luaScripts := acc.luaScripts + [argv[1][|LuaScriptPrefix|..]]))
    else None
  }
}
