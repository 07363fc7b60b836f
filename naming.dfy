/** The lexical conventions tying a capture sample to its dissector and to
    its golden file. Directory resolution (`path.resolve`, `path.join`) is
    abstracted as joining with "/". */
module Naming {
  import opened Text

  const PcapExt := ".pcap"
  const ExpectedExt := ".expected"
  const LuaExt := ".lua"

  /** `path.join(dir, name)`, and `path.resolve(name)` with `dir` the working directory. */
  function Join(dir: string, name: string): string {
    dir + "/" + name
  }

  /** `path.resolve("tests/samples")`. */
  function SamplesDir(root: string): string {
    Join(root, "tests/samples")
  }

  /** `pcap.split("-")[0]`: the text before the first "-"; with no "-"
      this is the whole file name, ".pcap" included. */
  function DissectorName(pcap: string): (r: string)
    ensures |r| <= |pcap| && r == pcap[..|r|] && '-' !in r
    ensures |r| < |pcap| ==> pcap[|r|] == '-'
    ensures '-' !in pcap ==> r == pcap
  {
    PrefixBefore(pcap, '-')
  }

  /** `path.resolve(`${dissectorName}.lua`)`. */
  function DissectorPath(root: string, pcap: string): string {
    Join(root, DissectorName(pcap) + LuaExt)
  }

  /** `pcap.replace(".pcap", ".expected")`: the FIRST ".pcap" is replaced. */
  function ExpectedName(pcap: string): string {
    ReplaceFirst(pcap, PcapExt, ExpectedExt)
  }

  /** The watch script's normalisation of its argument to a file name. */
  function PcapFileName(sampleName: string): (r: string)
    ensures EndsWith(r, PcapExt)
    ensures EndsWith(sampleName, PcapExt) ==> r == sampleName
    ensures !EndsWith(sampleName, PcapExt) ==> r == sampleName + PcapExt
  {
    if EndsWith(sampleName, PcapExt) then sampleName else sampleName + PcapExt
  }

  lemma PcapFileNameIdempotent(sampleName: string)
    ensures PcapFileName(PcapFileName(sampleName)) == PcapFileName(sampleName)
  {
  }

  /** The golden name of `<stem>.pcap<rest>`, where the stem holds no
      ".pcap", is `<stem>.expected<rest>`: only the first ".pcap" is replaced,
      so `a.pcap.pcap` gets `a.expected.pcap`. (".pcap" cannot straddle the
      stem and the extension: no proper suffix of ".pcap" starts with '.'.) */
  lemma ExpectedNameReplacesFirst(stem: string, rest: string)
    requires forall j: nat :: !OccursAt(stem, PcapExt, j)
    ensures ExpectedName(stem + PcapExt + rest) == stem + ExpectedExt + rest
  {
    var s := stem + PcapExt + rest;
    var n := |stem|;
    assert s[n..n + 5] == PcapExt;
    forall j: nat | j < n ensures !OccursAt(s, PcapExt, j) {
      if j + 5 <= n {
        assert s[j..j + 5] == stem[j..j + 5];
        assert !OccursAt(stem, PcapExt, j);
      } else if j + 5 <= |s| {
        assert s[n] == '.';
        assert s[j..j + 5][n - j] == s[n];
      }
    }
    assert FirstOccurrence(s, PcapExt, n);
    assert s[..n] == stem;
    assert s[n + 5..] == rest;
  }

  /** A sample named `<stem>.pcap` has the golden file `<stem>.expected`. */
  lemma ExpectedNameOfSample(stem: string)
    requires forall j: nat :: !OccursAt(stem, PcapExt, j)
    ensures ExpectedName(stem + PcapExt) == stem + ExpectedExt
  {
    ExpectedNameReplacesFirst(stem, "");
    assert stem + PcapExt + "" == stem + PcapExt;
    assert stem + ExpectedExt + "" == stem + ExpectedExt;
  }

  /** A stem without '.' cannot hold ".pcap". */
  lemma NoDotNoPcap(stem: string)
    requires '.' !in stem
    ensures forall j: nat :: !OccursAt(stem, PcapExt, j)
  {
    forall j: nat ensures !OccursAt(stem, PcapExt, j) {
      if j + 5 <= |stem| {
        assert stem[j..j + 5][0] == stem[j];
      }
    }
  }

  /** The naming convention `<key>-<anything>.pcap`: the dissector is `key`
      and the golden file `<key>-<anything>.expected` (for the repository's
      sample `scte104-init_request.pcap`: `scte104` and
      `scte104-init_request.expected`, as `RepositorySample` proves). */
  lemma {:induction false} ConventionNaming(key: string, anything: string)
    requires '-' !in key
    requires forall j: nat :: !OccursAt(key + "-" + anything, PcapExt, j)
    ensures DissectorName(key + "-" + anything + PcapExt) == key
    ensures ExpectedName(key + "-" + anything + PcapExt) == key + "-" + anything + ExpectedExt
  {
    var s := key + "-" + anything + PcapExt;
    var r := DissectorName(s);
    var n := |key|;
    assert s[n] == '-';
    assert s[..n] == key;
    ExpectedNameOfSample(key + "-" + anything);
  }

  /** The repository's own sample `scte104-init_request.pcap` is dissected
      by `scte104` and compared with `scte104-init_request.expected`. */
  lemma RepositorySample(key: string, anything: string)
    requires key == "scte104" && anything == "init_request"
    ensures DissectorName(key + "-" + anything + PcapExt) == "scte104"
    ensures ExpectedName(key + "-" + anything + PcapExt) == key + "-" + anything + ExpectedExt
  {
    NoDotNoPcap(key + "-" + anything);
    ConventionNaming(key, anything);
  }

  /** Without a "-", the dissector name keeps the extension:
      `scte104.pcap` is dissected by `scte104.pcap.lua`. */
  lemma DissectorNameWithoutDash(root: string, pcap: string)
    requires '-' !in pcap
    ensures DissectorPath(root, pcap) == Join(root, pcap + LuaExt)
  {
  }
}
