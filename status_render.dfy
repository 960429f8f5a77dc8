/**
 * What `show_info` prints for one interface, as functions on values: the
 * reading of each line of `wg show` output (Classify), the text printed
 * for it, and the output after the first k readings, carrying the
 * `peer_section` flag and stopping at the first KeyError or IndexError.
 *
 * Each element of an output sequence is the argument of one `print`.
 */
module StatusRender {
  import opened Wrappers
  import opened PyText
  import opened ConfigScan

  /** The format strings of the chosen theme: ANSI escapes, HTML spans, or all empty. */
  datatype Theme = Theme(
    red: string, redBold: string, green: string, greenBold: string,
    yellow: string, yellowBold: string, bold: string, end: string)

  /** How one line reads, in the order `show_info` tests its cases. */
  datatype LineKind =
    | PeerHeader(key: string)
    | InterfaceHeader(name: string)
    | HiddenKey
    | Attribute(key: string, value: string)
    | MissingColon(line: string)
    | Blank

  /** KeyError on the registry lookup, or IndexError taking the value of a line without ':'. */
  datatype RenderError = UnknownPeer(key: string) | MissingValue(line: string)

  /** The lines printed so far, the `peer_section` flag, and the error that stopped the walk, if any. */
  datatype Rendering = Rendering(out: seq<string>, peerSection: bool, failure: Option<RenderError>)

  /** The reading of a raw line: it is stripped first. */
  function Classify(raw: string): LineKind {
    ClassifyLine(Strip(raw))
  }

  /** The reading of a stripped line: headers first, then hidden keys, attributes and blank lines. */
  function ClassifyLine(line: string): LineKind {
    if StartsWith(line, "peer:") then
      assert line[..5][4] == ':';
      PeerHeader(HeaderValue(line))
    else if StartsWith(line, "interface:") then
      assert line[..10][9] == ':';
      InterfaceHeader(HeaderValue(line))
    else if StartsWith(line, "preshared key:") || StartsWith(line, "private key:") then
      HiddenKey
    else if line != "" then
      ClassifyField(line)
    else Blank
  }

  /** `line.split(':', 1)[1].strip()` */
  function HeaderValue(line: string): string
    requires ':' in line
  {
    Strip(SplitOnce(line, ':')[1])
  }

  /** A non-empty line that is neither a header nor a hidden key: `key: value`, or a line without ':'. */
  function ClassifyField(line: string): LineKind {
    var parts := SplitOnce(line, ':');
    if |parts| < 2 then MissingColon(line)
    else Attribute(Strip(Split(line, ':')[0]), Strip(parts[1]))
  }

  /** A header's value is everything after its `peer:` or `interface:` prefix, stripped. */
  lemma HeaderReading(line: string)
    ensures StartsWith(line, "peer:") ==> ClassifyLine(line) == PeerHeader(Strip(line[5..]))
    ensures !StartsWith(line, "peer:") && StartsWith(line, "interface:") ==>
      ClassifyLine(line) == InterfaceHeader(Strip(line[10..]))
  {
    if StartsWith(line, "peer:") {
      assert line[..5] == "peer:";
      assert line[4] == ':';
      FirstColonAt(line, 4);
    } else if StartsWith(line, "interface:") {
      assert line[..10] == "interface:";
      assert line[9] == ':';
      FirstColonAt(line, 9);
    }
  }

  lemma FirstColonAt(line: string, n: nat)
    requires n < |line| && line[n] == ':'
    requires forall j :: 0 <= j < n ==> line[j] != ':'
    ensures ':' in line && FirstIndex(line, ':') == n
    ensures SplitOnce(line, ':')[1] == line[n + 1..]
  {
    assert line[n] in line;
    FirstIndexIsFirst(line, ':');
    assert line[..FirstIndex(line, ':')] <= line;
  }

  /**
   * Any other non-empty line reads as `key: value` when it holds a ':',
   * with the key the stripped text before the first ':' and the value the
   * stripped text after it; without a ':' it has no value.
   */
  lemma FieldReading(line: string)
    ensures ClassifyField(line).Attribute? <==> ':' in line
    ensures ':' in line ==>
      var k := FirstIndex(line, ':');
      ClassifyField(line) == Attribute(Strip(line[..k]), Strip(line[k + 1..]))
    ensures ':' !in line ==> ClassifyField(line) == MissingColon(line)
  {
  }

  /** The peer's line, in the green formats unless a probe recorded the peer as offline. */
  function PeerLine(theme: Theme, key: string, info: PeerInfo): string {
    var online := match info.online case None => true case Some(b) => b;
    var boldFmt := if online then theme.greenBold else theme.redBold;
    var fmt := if online then theme.green else theme.red;
    "  " + boldFmt + "peer" + theme.end + ": " + fmt + info.name + " (" + key + ")" + theme.end
  }

  function InterfaceLine(theme: Theme, name: string): string {
    theme.yellowBold + "interface" + theme.end + ": " + theme.yellow + name + theme.end
  }

  /** Four spaces inside a peer's block, two elsewhere. */
  function Indent(inPeerSection: bool): string {
    if inPeerSection then "    " else "  "
  }

  function AttributeLine(theme: Theme, inPeerSection: bool, key: string, value: string): string {
    Indent(inPeerSection) + theme.bold + key + theme.end + ": " + value
  }

  /** One more line of output, from a state that has not failed. */
  function RenderStep(r: Rendering, kind: LineKind, peers: map<string, PeerInfo>, theme: Theme): Rendering
    requires r.failure.None?
  {
    match kind
    case PeerHeader(key) =>
      if key in peers then Rendering(r.out + [PeerLine(theme, key, peers[key])], true, None)
      else Rendering(r.out, true, Some(UnknownPeer(key)))
    case InterfaceHeader(name) => Rendering(r.out + [InterfaceLine(theme, name)], false, None)
    case HiddenKey => r
    case Attribute(key, value) =>
      Rendering(r.out + [AttributeLine(theme, r.peerSection, key, value)], r.peerSection, None)
    case MissingColon(line) => r.(failure := Some(MissingValue(line)))
    case Blank => r.(out := r.out + [""])
  }

  /** The reading of every line, in order. */
  function Parse(lines: seq<string>): (kinds: seq<LineKind>)
    ensures |kinds| == |lines|
  {
    if lines == [] then [] else [Classify(lines[0])] + Parse(lines[1..])
  }

  /** The reading listed for line i is the reading of line i. */
  lemma {:induction false} ParseAt(lines: seq<string>, i: nat)
    requires i < |lines|
    ensures Parse(lines)[i] == Classify(lines[i])
    decreases i
  {
    if i > 0 {
      ParseAt(lines[1..], i - 1);
    }
  }

  /** The state after the first k readings. */
  function RenderPrefix(kinds: seq<LineKind>, k: nat, peers: map<string, PeerInfo>, theme: Theme): Rendering
    requires k <= |kinds|
    decreases k
  {
    if k == 0 then Rendering([], false, None)
    else
      var r := RenderPrefix(kinds, k - 1, peers, theme);
      if r.failure.Some? then r else RenderStep(r, kinds[k - 1], peers, theme)
  }

  /** Everything `show_info` prints for a status text, and the error that stopped it, if any. */
  function Render(text: string, peers: map<string, PeerInfo>, theme: Theme): Rendering {
    var kinds := Parse(StatusLines(text));
    RenderPrefix(kinds, |kinds|, peers, theme)
  }

  /** `output.split("\n")[:-1]`: the lines of the status text, without the piece after the last newline. */
  function StatusLines(text: string): seq<string> {
    var parts := Split(text, '\n');
    parts[..|parts| - 1]
  }

  /** Lines, each followed by a newline. */
  function Terminated(lines: seq<string>): string
    decreases |lines|
  {
    if lines == [] then "" else lines[0] + "\n" + Terminated(lines[1..])
  }

  /** The line stops the walk: an unknown peer, or a value-less line. */
  predicate Fails(kind: LineKind, peers: map<string, PeerInfo>) {
    match kind
    case PeerHeader(key) => key !in peers
    case MissingColon(_) => true
    case _ => false
  }

  /** A `peer:` line has been seen among the first k lines, with no `interface:` line after it. */
  predicate InPeerSection(kinds: seq<LineKind>, k: nat)
    requires k <= |kinds|
  {
    exists j :: 0 <= j < k && kinds[j].PeerHeader? &&
      forall m :: j < m < k ==> !kinds[m].InterfaceHeader?
  }

  /** The number of lines among the first k that are not hidden keys. */
  function Shown(kinds: seq<LineKind>, k: nat): nat
    requires k <= |kinds|
    decreases k
  {
    if k == 0 then 0
    else Shown(kinds, k - 1) + (if kinds[k - 1].HiddenKey? then 0 else 1)
  }

  /** Once the walk has failed, later lines change nothing. */
  lemma {:induction false} RenderFailedSticks(kinds: seq<LineKind>, k: nat, n: nat, peers: map<string, PeerInfo>, theme: Theme)
    requires k <= n <= |kinds|
    requires RenderPrefix(kinds, k, peers, theme).failure.Some?
    ensures RenderPrefix(kinds, n, peers, theme) == RenderPrefix(kinds, k, peers, theme)
    decreases n
  {
    if n > k {
      RenderFailedSticks(kinds, k, n - 1, peers, theme);
    }
  }

  /** The walk fails exactly when one of the lines is an unknown peer or a value-less line. */
  lemma {:induction false} RenderFailsIff(kinds: seq<LineKind>, k: nat, peers: map<string, PeerInfo>, theme: Theme)
    requires k <= |kinds|
    ensures RenderPrefix(kinds, k, peers, theme).failure.Some? <==>
      exists i :: 0 <= i < k && Fails(kinds[i], peers)
    decreases k
  {
    if k > 0 {
      RenderFailsIff(kinds, k - 1, peers, theme);
    }
  }

  /**
   * The first failing line decides the error, and the output is exactly
   * what the lines before it printed: nothing is printed for that line.
   */
  lemma RenderFailurePoint(kinds: seq<LineKind>, f: nat, peers: map<string, PeerInfo>, theme: Theme)
    requires f < |kinds| && Fails(kinds[f], peers)
    requires forall i :: 0 <= i < f ==> !Fails(kinds[i], peers)
    ensures RenderPrefix(kinds, |kinds|, peers, theme).out == RenderPrefix(kinds, f, peers, theme).out
    ensures RenderPrefix(kinds, |kinds|, peers, theme).failure ==
      Some(if kinds[f].PeerHeader? then UnknownPeer(kinds[f].key)
           else MissingValue(kinds[f].line))
  {
    RenderFailsIff(kinds, f, peers, theme);
    assert RenderPrefix(kinds, f + 1, peers, theme).failure.Some?;
    RenderFailedSticks(kinds, f + 1, |kinds|, peers, theme);
  }

  /** Without failure, exactly one line is printed per line that is not a hidden key. */
  lemma {:induction false} RenderCount(kinds: seq<LineKind>, k: nat, peers: map<string, PeerInfo>, theme: Theme)
    requires k <= |kinds|
    requires RenderPrefix(kinds, k, peers, theme).failure.None?
    ensures |RenderPrefix(kinds, k, peers, theme).out| == Shown(kinds, k)
    decreases k
  {
    if k > 0 {
      RenderCount(kinds, k - 1, peers, theme);
    }
  }

  /** The `peer_section` flag is set exactly when a `peer:` line came after the last `interface:` line. */
  lemma {:induction false} PeerSectionIff(kinds: seq<LineKind>, k: nat, peers: map<string, PeerInfo>, theme: Theme)
    requires k <= |kinds|
    requires RenderPrefix(kinds, k, peers, theme).failure.None?
    ensures RenderPrefix(kinds, k, peers, theme).peerSection <==> InPeerSection(kinds, k)
    decreases k
  {
    if k > 0 {
      var prev := RenderPrefix(kinds, k - 1, peers, theme);
      assert prev.failure.None?;
      PeerSectionIff(kinds, k - 1, peers, theme);
      var c := kinds[k - 1];
      if c.PeerHeader? {
        assert InPeerSection(kinds, k);
      } else if !c.InterfaceHeader? {
        if InPeerSection(kinds, k) {
          var j :| 0 <= j < k && kinds[j].PeerHeader? &&
            forall m :: j < m < k ==> !kinds[m].InterfaceHeader?;
          assert j < k - 1;
          assert InPeerSection(kinds, k - 1);
        }
        if InPeerSection(kinds, k - 1) {
          var j :| 0 <= j < k - 1 && kinds[j].PeerHeader? &&
            forall m :: j < m < k - 1 ==> !kinds[m].InterfaceHeader?;
          assert forall m :: j < m < k ==> !kinds[m].InterfaceHeader?;
        }
      }
    }
  }

  /**
   * Line order is kept: the i-th input line, unless hidden, prints the
   * (Shown(kinds, i))-th output line, with the text its reading calls for.
   */
  lemma {:induction false} RenderLineAt(kinds: seq<LineKind>, k: nat, i: nat, peers: map<string, PeerInfo>, theme: Theme)
    requires i < k <= |kinds|
    requires RenderPrefix(kinds, k, peers, theme).failure.None?
    requires !kinds[i].HiddenKey?
    ensures Shown(kinds, i) < |RenderPrefix(kinds, k, peers, theme).out|
    ensures var line := RenderPrefix(kinds, k, peers, theme).out[Shown(kinds, i)];
      match kinds[i]
      case PeerHeader(key) => key in peers && line == PeerLine(theme, key, peers[key])
      case InterfaceHeader(name) => line == InterfaceLine(theme, name)
      case Attribute(key, value) => line == AttributeLine(theme, InPeerSection(kinds, i), key, value)
      case Blank => line == ""
      case _ => false
    decreases k
  {
    var prev := RenderPrefix(kinds, k - 1, peers, theme);
    assert prev.failure.None?;
    if i < k - 1 {
      RenderLineAt(kinds, k - 1, i, peers, theme);
      assert prev.out <= RenderPrefix(kinds, k, peers, theme).out;
    } else {
      RenderCount(kinds, i, peers, theme);
      PeerSectionIff(kinds, i, peers, theme);
    }
  }

  /** The status lines are the text's newline-separated lines, and the text is those lines plus what follows the last newline. */
  lemma StatusLinesOf(text: string)
    ensures forall i :: 0 <= i < |StatusLines(text)| ==> '\n' !in StatusLines(text)[i]
    ensures text == Terminated(StatusLines(text)) + Last(Split(text, '\n'))
  {
    SplitParts(text, '\n');
    JoinSplit(text, '\n');
    JoinAsTerminated(Split(text, '\n'));
  }

  lemma {:induction false} JoinAsTerminated(parts: seq<string>)
    requires |parts| >= 1
    ensures Join(parts, '\n') == Terminated(parts[..|parts| - 1]) + parts[|parts| - 1]
    decreases |parts|
  {
    if |parts| > 1 {
      JoinAsTerminated(parts[1..]);
      assert parts[1..][..|parts| - 2] == parts[..|parts| - 1][1..];
    }
  }
}
