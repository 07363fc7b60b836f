/** tests/helpers/compare.js: exact comparison of a tshark report with its
    golden file, and the rendering of a line diff into the failure message.
    The diff itself (`diffLines` of the `diff` package) is a parameter. */
module Compare {
  import opened Wrappers

  /** One change object of `diffLines`: a run of lines with its tags. */
  datatype Part = Part(value: string, added: bool, removed: bool)

  /** A line differ from the old text to the new text. */
  type Differ = (string, string) -> seq<Part>

  /** The failure the assertion raises: its message and the two texts. */
  datatype Mismatch = Mismatch(message: string, actual: string, expected: string)

  const MismatchHeader := "tshark output mismatch:\n"

  /** `part.added ? "+" : part.removed ? "-" : " "` */
  function Sign(p: Part): (c: char)
    ensures c == '+' <==> p.added
    ensures c == '-' <==> !p.added && p.removed
    ensures c == ' ' <==> !p.added && !p.removed
  {
    if p.added then '+' else if p.removed then '-' else ' '
  }

  /** One sign for the whole part, however many lines its value holds. */
  function RenderPart(p: Part): string {
    [Sign(p)] + p.value
  }

  /** `parts.map(RenderPart).join("")` */
  function Render(parts: seq<Part>): string {
    if parts == [] then "" else RenderPart(parts[0]) + Render(parts[1..])
  }

  /** Sum of one sign plus the value length over the parts. */
  function RenderedSize(parts: seq<Part>): nat {
    if parts == [] then 0 else 1 + |parts[0].value| + RenderedSize(parts[1..])
  }

  lemma {:induction false} RenderLength(parts: seq<Part>)
    ensures |Render(parts)| == RenderedSize(parts)
  {
    if parts != [] {
      RenderLength(parts[1..]);
    }
  }

  /** Rendering distributes over concatenation: no separator is inserted. */
  lemma {:induction false} RenderAppend(a: seq<Part>, b: seq<Part>)
    ensures Render(a + b) == Render(a) + Render(b)
  {
    if a == [] {
      assert a + b == b;
    } else {
      assert (a + b)[1..] == a[1..] + b;
      RenderAppend(a[1..], b);
    }
  }

  /** Part `i` appears in the rendering as its single sign followed by its
      whole value, right after the rendering of the parts before it. */
  lemma {:induction false} RenderAt(parts: seq<Part>, i: nat)
    requires i < |parts|
    ensures Render(parts) == Render(parts[..i]) + [Sign(parts[i])] + parts[i].value + Render(parts[i + 1..])
  {
    var pre, rest := parts[..i], parts[i..];
    assert parts == pre + rest;
    assert rest[0] == parts[i] && rest[1..] == parts[i + 1..];
    RenderAppend(pre, rest);
  }

  /** The old text a diff describes: all parts not tagged added. */
  function OldText(parts: seq<Part>): string {
    if parts == [] then "" else (if parts[0].added then "" else parts[0].value) + OldText(parts[1..])
  }

  /** The new text a diff describes: all parts not tagged removed. */
  function NewText(parts: seq<Part>): string {
    if parts == [] then "" else (if parts[0].removed then "" else parts[0].value) + NewText(parts[1..])
  }

  /** `parts` is a diff from `from` to `to`. */
  predicate IsDiff(parts: seq<Part>, from: string, to: string) {
    OldText(parts) == from && NewText(parts) == to
  }

  /** A diff whose every part is context describes two equal texts. */
  lemma {:induction false} ContextOnlyDiffIsEqual(parts: seq<Part>)
    requires forall i :: 0 <= i < |parts| ==> Sign(parts[i]) == ' '
    ensures OldText(parts) == NewText(parts)
  {
    if parts != [] {
      assert Sign(parts[0]) == ' ';
      ContextOnlyDiffIsEqual(parts[1..]);
    }
  }

  /** When the texts differ, a correct diff shows at least one "+" or "-"
      sign in the rendered failure text. */
  lemma MismatchShowsChange(parts: seq<Part>, expected: string, actual: string)
    requires IsDiff(parts, expected, actual) && expected != actual
    ensures exists i :: 0 <= i < |parts| && Sign(parts[i]) != ' ' && |Render(parts[..i])| < |Render(parts)|
                       && Render(parts)[|Render(parts[..i])|] == Sign(parts[i])
  {
    if forall i :: 0 <= i < |parts| ==> Sign(parts[i]) == ' ' {
      ContextOnlyDiffIsEqual(parts);
      assert false;
    }
    var i :| 0 <= i < |parts| && Sign(parts[i]) != ' ';
    RenderAt(parts, i);
  }

  /** `compareOutput(actual, expected)`: passes exactly when the two texts
      are equal; otherwise fails with the header and the diff rendered from
      the expected text to the actual one. */
  function CompareOutput(actual: string, expected: string, diffLines: Differ): (r: Outcome<Mismatch>)
    ensures r.Pass? <==> actual == expected
    ensures r.Fail? ==> r.error.actual == actual && r.error.expected == expected
    ensures r.Fail? ==> r.error.message == MismatchHeader + Render(diffLines(expected, actual))
  {
    if actual == expected then Pass
    else
      var diff := Render(diffLines(expected, actual));
      Fail(Mismatch(MismatchHeader + diff, actual, expected))
  }

  /** Comparing expected "A\nB\n" with actual "A\nC\n" through the diff
      [" A\n" context, "B\n" removed, "C\n" added] renders " A\n-B\n+C\n". */
  lemma RenderExample()
    ensures IsDiff([Part("A\n", false, false), Part("B\n", false, true), Part("C\n", true, false)], "A\nB\n", "A\nC\n")
    ensures Render([Part("A\n", false, false), Part("B\n", false, true), Part("C\n", true, false)]) == " A\n-B\n+C\n"
  {
  }

  /** A part of several lines gets one sign, not one per line. */
  lemma OneSignPerPart()
    ensures Render([Part("B\nC\n", false, true)]) == "-B\nC\n"
  {
  }
}
