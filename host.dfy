/** What the harness sees of the machine it runs on: the platform name,
    which paths exist, and a child process that runs to completion. */
module Host {
  import opened Wrappers

  /** `process.platform`, reduced to the values the harness tests for:
      `Other` stands for every value besides "win32" and "darwin". */
  datatype Platform = Win32 | Darwin | Other

  /** The platform a `process.platform` string denotes. */
  function PlatformOf(name: string): (p: Platform)
    ensures p == Win32 <==> name == "win32"
    ensures p == Darwin <==> name == "darwin"
  {
    if name == "win32" then Win32 else if name == "darwin" then Darwin else Other
  }

  /** The three values `execFile` hands its callback: the error
      (represented by its message) and the captured output streams. */
  datatype ExecResult = ExecResult(err: Option<string>, stdout: string, stderr: string)

  /** The environment: platform, `fs.existsSync` (fileExists), and a child process run
      to completion as `exec(executable, argv)`. */
  datatype Env = Env(
    platform: Platform,
    fileExists: string -> bool,
    exec: (string, seq<string>) -> ExecResult)
}
