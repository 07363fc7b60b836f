/** tests/test_samples.spec.js: one test case per capture sample, each
    running tshark on the sample and comparing the report with the golden
    file. The sample directory is a map from path to file content. */
module TestSamples {
  import opened Wrappers
  import opened Text
  import opened Host
  import opened Naming
  import opened TShark
  import opened Compare

  /** What one registered `it` closes over. */
  datatype TestCase = TestCase(title: string, pcapPath: string, luaDissector: string, expectedPath: string)

  /** Why a test case fails: tshark rejected, `readFileSync` threw because the
      golden file is missing, or `compareOutput` found a difference. */
  datatype CaseFailure = EngineFailed(message: string) | ExpectedMissing(path: string) | Mismatched(mismatch: Mismatch)

  /** The per-sample derivations of the loop body. */
  function CaseFor(root: string, pcap: string): TestCase {
    var samplesDir := SamplesDir(root);
    var name := ExpectedName(pcap);
    var expectedPath := Join(samplesDir, name);
    var dissectorName := DissectorName(pcap);
    var luaDissector := Join(root, dissectorName + LuaExt);
    TestCase("parses " + pcap, Join(samplesDir, pcap), luaDissector, expectedPath)
  }

  /** For a sample named by the convention `<key>-<anything>.pcap` the test
      reads `<key>-<anything>.expected` from the sample directory and loads
      `<key>.lua`, whose protocol tshark is told to show is `key`. */
  lemma CaseForConvention(root: string, key: string, anything: string)
    requires '-' !in key && key != "" && '/' !in key + "-" + anything
    requires forall j: nat :: !OccursAt(key + "-" + anything, PcapExt, j)
    ensures CaseFor(root, key + "-" + anything + PcapExt).expectedPath == Join(SamplesDir(root), key + "-" + anything + ExpectedExt)
    ensures CaseFor(root, key + "-" + anything + PcapExt).luaDissector == Join(root, key + LuaExt)
    ensures ProtocolName(CaseFor(root, key + "-" + anything + PcapExt).luaDissector) == key
  {
    var pcap := key + "-" + anything + PcapExt;
    ConventionNaming(key, anything);
    assert '/' !in pcap by {
      assert pcap == (key + "-" + anything) + PcapExt;
    }
    ProtocolOfDissector(root, pcap);
  }

  /** The registration loop: one test case per listing entry ending in
      ".pcap", in listing order. */
  method RegisterTests(root: string, listing: seq<string>) returns (cases: seq<TestCase>)
    ensures |cases| == |WithSuffix(listing, PcapExt)|
    ensures forall i :: 0 <= i < |cases| ==> cases[i] == CaseFor(root, WithSuffix(listing, PcapExt)[i])
  {
    var pcaps := WithSuffix(listing, PcapExt);
    cases := [];
    for k := 0 to |pcaps|
      invariant |cases| == k
      invariant forall i :: 0 <= i < k ==> cases[i] == CaseFor(root, pcaps[i])
    {
      cases := cases + [CaseFor(root, pcaps[k])];
    }
  }

  /** What a test case promises: tshark succeeds, the golden file exists, and
      the report equals its content exactly. */
  predicate Matches(tc: TestCase, env: Env, files: map<string, string>) {
    var actual := RunTshark(env, tc.pcapPath, tc.luaDissector);
    actual.Success? && tc.expectedPath in files && files[tc.expectedPath] == actual.value
  }

  /** The body of one `it`: run tshark, then read the golden file, then compare. */
  method RunCase(tc: TestCase, env: Env, files: map<string, string>, diffLines: Differ)
    returns (outcome: Outcome<CaseFailure>)
    ensures outcome.Pass? <==> Matches(tc, env, files)
    ensures RunTshark(env, tc.pcapPath, tc.luaDissector).Failure?
            ==> outcome == Fail(EngineFailed(RunTshark(env, tc.pcapPath, tc.luaDissector).error))
    ensures RunTshark(env, tc.pcapPath, tc.luaDissector).Success? && tc.expectedPath !in files
            ==> outcome == Fail(ExpectedMissing(tc.expectedPath))
    ensures outcome.Fail? && outcome.error.Mismatched? ==>
      var actual := RunTshark(env, tc.pcapPath, tc.luaDissector);
      actual.Success? && tc.expectedPath in files
      && outcome.error.mismatch == CompareOutput(actual.value, files[tc.expectedPath], diffLines).error
    ensures var actual := RunTshark(env, tc.pcapPath, tc.luaDissector);
      actual.Success? && tc.expectedPath in files && files[tc.expectedPath] != actual.value
      ==> outcome == Fail(Mismatched(CompareOutput(actual.value, files[tc.expectedPath], diffLines).error))
  {
    var actual := RunTshark(env, tc.pcapPath, tc.luaDissector);
    if actual.Failure? {
      return Fail(EngineFailed(actual.error));
    }
    if tc.expectedPath !in files {
      return Fail(ExpectedMissing(tc.expectedPath));
    }
    var expected := files[tc.expectedPath];
    var compared := CompareOutput(actual.value, expected, diffLines);
    outcome := if compared.Pass? then Pass else Fail(Mismatched(compared.error));
  }

  /** The test runner executes the registered cases one at a time; each case
      has its own outcome, and one failure does not stop the others. */
  method RunSuite(cases: seq<TestCase>, env: Env, files: map<string, string>, diffLines: Differ)
    returns (outcomes: seq<Outcome<CaseFailure>>, allPassed: bool)
    ensures |outcomes| == |cases|
    ensures forall i :: 0 <= i < |cases| ==> (outcomes[i].Pass? <==> Matches(cases[i], env, files))
    ensures allPassed <==> forall i :: 0 <= i < |cases| ==> Matches(cases[i], env, files)
  {
    outcomes := [];
    allPassed := true;
    for k := 0 to |cases|
      invariant |outcomes| == k
      invariant forall i :: 0 <= i < k ==> (outcomes[i].Pass? <==> Matches(cases[i], env, files))
      invariant allPassed <==> forall i :: 0 <= i < k ==> Matches(cases[i], env, files)
    {
      var outcome := RunCase(cases[k], env, files, diffLines);
      outcomes := outcomes + [outcome];
      allPassed := allPassed && outcome.Pass?;
    }
  }
}
