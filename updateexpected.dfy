/** tests/update_expected.js: generate the golden files that are missing.
    The sample directory is a map from path to file content that the loop
    checks and extends one sample at a time; `canWrite` says which paths
    `writeFileSync` can write. */
module UpdateExpected {
  import opened Wrappers
  import opened Text
  import opened Naming

  /** What the run depends on besides the directory: the working
      directory, `runTshark` as a function of the capture and dissector
      paths (on a machine `env` it is `(p, l) => RunTshark(env, p, l)`),
      and which writes succeed. */
  datatype Context = Context(root: string, runTshark: (string, string) -> Result<string, string>, canWrite: string -> bool)

  /** The error caught by the per-sample try/catch. */
  datatype Failure = EngineFailed(message: string) | WriteFailed(path: string)

  /** What the loop reports for one sample. */
  datatype Entry =
    | Skipped(pcap: string, expectedFile: string)
    | Updated(pcap: string, expectedFile: string)
    | Errored(pcap: string, failure: Failure)

  /** The golden file path of a sample. */
  function ExpectedPath(c: Context, pcap: string): string {
    Join(SamplesDir(c.root), ExpectedName(pcap))
  }

  /** tshark's report for a sample, with the sample's dissector. */
  function Output(c: Context, pcap: string): Result<string, string> {
    c.runTshark(Join(SamplesDir(c.root), pcap), DissectorPath(c.root, pcap))
  }

  /** One iteration: skip when the golden file exists, otherwise run tshark
      and write its report; an engine or write error leaves the directory as it was. */
  function Step(files: map<string, string>, c: Context, pcap: string): (r: (map<string, string>, Entry))
    ensures r.1.pcap == pcap
    ensures r.1.Skipped? <==> ExpectedPath(c, pcap) in files
    ensures r.1.Updated? <==> ExpectedPath(c, pcap) !in files && Output(c, pcap).Success? && c.canWrite(ExpectedPath(c, pcap))
    ensures r.1.Updated? ==> r.0 == files[ExpectedPath(c, pcap) := Output(c, pcap).value]
    ensures !r.1.Updated? ==> r.0 == files
  {
    var expectedFile := ExpectedName(pcap);
    var expectedPath := ExpectedPath(c, pcap);
    if expectedPath in files then (files, Skipped(pcap, expectedFile))
    else
      match Output(c, pcap)
      case Failure(message) => (files, Errored(pcap, EngineFailed(message)))
      case Success(output) =>
        if c.canWrite(expectedPath) then (files[expectedPath := output], Updated(pcap, expectedFile))
        else (files, Errored(pcap, WriteFailed(expectedPath)))
  }

  /** The directory and the log after processing `pcaps` in order. */
  function UpdateAll(files: map<string, string>, c: Context, pcaps: seq<string>): (map<string, string>, seq<Entry>) {
    if pcaps == [] then (files, [])
    else
      var before := UpdateAll(files, c, pcaps[..|pcaps| - 1]);
      var after := Step(before.0, c, pcaps[|pcaps| - 1]);
      (after.0, before.1 + [after.1])
  }

  /** Every sample gets exactly one log entry, in order: an error in one
      sample does not end the loop. */
  lemma {:induction false} UpdateLogsEverySample(files: map<string, string>, c: Context, pcaps: seq<string>)
    ensures |UpdateAll(files, c, pcaps).1| == |pcaps|
    ensures forall i :: 0 <= i < |pcaps| ==> UpdateAll(files, c, pcaps).1[i].pcap == pcaps[i]
    decreases |pcaps|
  {
    if pcaps != [] {
      var init := pcaps[..|pcaps| - 1];
      var before := UpdateAll(files, c, init);
      var after := Step(before.0, c, pcaps[|pcaps| - 1]);
      assert UpdateAll(files, c, pcaps).1 == before.1 + [after.1];
      UpdateLogsEverySample(files, c, init);
      forall i | 0 <= i < |init|
        ensures UpdateAll(files, c, pcaps).1[i].pcap == pcaps[i]
      {
        assert init[i] == pcaps[i];
      }
    }
  }

  /** An existing file is never overwritten: its content is unchanged. */
  lemma {:induction false} UpdateNeverOverwrites(files: map<string, string>, c: Context, pcaps: seq<string>)
    ensures forall k :: k in files ==> k in UpdateAll(files, c, pcaps).0 && UpdateAll(files, c, pcaps).0[k] == files[k]
    decreases |pcaps|
  {
    if pcaps != [] {
      UpdateNeverOverwrites(files, c, pcaps[..|pcaps| - 1]);
    }
  }

  /** Every file that is new afterwards is the golden file of some sample,
      could be written, and holds exactly tshark's report for that sample. */
  lemma {:induction false} UpdateWritesOnlyReports(files: map<string, string>, c: Context, pcaps: seq<string>)
    ensures forall k :: k in UpdateAll(files, c, pcaps).0 && k !in files ==>
      exists i :: 0 <= i < |pcaps| && ExpectedPath(c, pcaps[i]) == k && c.canWrite(k)
                  && Output(c, pcaps[i]) == Success(UpdateAll(files, c, pcaps).0[k])
    decreases |pcaps|
  {
    if pcaps != [] {
      var init := pcaps[..|pcaps| - 1];
      var last := pcaps[|pcaps| - 1];
      UpdateWritesOnlyReports(files, c, init);
      var before := UpdateAll(files, c, init).0;
      var after := UpdateAll(files, c, pcaps).0;
      forall k | k in after && k !in files
        ensures exists i :: 0 <= i < |pcaps| && ExpectedPath(c, pcaps[i]) == k && c.canWrite(k)
                            && Output(c, pcaps[i]) == Success(after[k])
      {
        if k in before {
          var i :| 0 <= i < |init| && ExpectedPath(c, init[i]) == k && c.canWrite(k)
                   && Output(c, init[i]) == Success(before[k]);
          assert init[i] == pcaps[i];
        } else {
          assert ExpectedPath(c, pcaps[|pcaps| - 1]) == k;
        }
      }
    }
  }

  /** A sample whose tshark run succeeds and whose golden file can be
      written has a golden file afterwards (it existed, it was written by
      this sample, or by an earlier sample with the same golden name). */
  lemma {:induction false} UpdateFillsGaps(files: map<string, string>, c: Context, pcaps: seq<string>, pcap: string)
    requires pcap in pcaps && Output(c, pcap).Success? && c.canWrite(ExpectedPath(c, pcap))
    ensures ExpectedPath(c, pcap) in UpdateAll(files, c, pcaps).0
    decreases |pcaps|
  {
    var init := pcaps[..|pcaps| - 1];
    var last := pcaps[|pcaps| - 1];
    assert pcaps == init + [last];
    var before := UpdateAll(files, c, init).0;
    var k := ExpectedPath(c, pcap);
    if pcap in init {
      UpdateFillsGaps(files, c, init, pcap);
      assert k in before;
    }
  }

  /** The body of the loop for one sample: the `try` block and its `catch`. */
  method ProcessSample(store: map<string, string>, c: Context, pcap: string)
    returns (newStore: map<string, string>, entry: Entry)
    ensures (newStore, entry) == Step(store, c, pcap)
  {
    var expectedFile := ExpectedName(pcap);
    var expectedPath := Join(SamplesDir(c.root), expectedFile);
    if expectedPath in store {
      return store, Skipped(pcap, expectedFile);
    }
    var dissectorName := DissectorName(pcap);
    var luaDissector := Join(c.root, dissectorName + LuaExt);
    var output := c.runTshark(Join(SamplesDir(c.root), pcap), luaDissector);
    if output.Failure? {
      return store, Errored(pcap, EngineFailed(output.error));
    }
    if !c.canWrite(expectedPath) {
      return store, Errored(pcap, WriteFailed(expectedPath));
    }
    return store[expectedPath := output.value], Updated(pcap, expectedFile);
  }

  /** `updateExpectedFiles()`: the loop over the ".pcap" entries of the listing. */
  method UpdateExpectedFiles(listing: seq<string>, files: map<string, string>, c: Context)
    returns (store: map<string, string>, log: seq<Entry>)
    ensures (store, log) == UpdateAll(files, c, WithSuffix(listing, PcapExt))
    ensures |log| == |WithSuffix(listing, PcapExt)|
    ensures forall k :: k in files ==> k in store && store[k] == files[k]
    ensures forall k :: k in store && k !in files ==>
      exists i :: 0 <= i < |WithSuffix(listing, PcapExt)| && k == ExpectedPath(c, WithSuffix(listing, PcapExt)[i])
        && c.canWrite(k) && Output(c, WithSuffix(listing, PcapExt)[i]) == Success(store[k])
  {
    var pcaps := WithSuffix(listing, PcapExt);
    store, log := files, [];
    for i := 0 to |pcaps|
      invariant (store, log) == UpdateAll(files, c, pcaps[..i])
    {
      assert pcaps[..i + 1][..i] == pcaps[..i];
      var entry;
      store, entry := ProcessSample(store, c, pcaps[i]);
      log := log + [entry];
    }
    assert pcaps[..|pcaps|] == pcaps;
    UpdateLogsEverySample(files, c, pcaps);
    UpdateNeverOverwrites(files, c, pcaps);
    UpdateWritesOnlyReports(files, c, pcaps);
  }
}
