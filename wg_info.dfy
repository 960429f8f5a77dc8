/**
 * The reporter's state and its operations: the process-wide peer
 * registry `peers`, filled from each interface's configuration, updated
 * by reachability probes, and read while printing each interface's
 * `wg show` output; interfaces are printed one after another with a
 * separator between consecutive ones.
 */
module WgInfo {
  import opened Wrappers
  import opened PyText
  import opened ConfigScan
  import opened StatusRender
  import opened Generators

  /** `lookahead` failing on an empty interface list, or `show_info` failing on one interface. */
  datatype ReportError = NoInterfaces | RenderFailed(error: RenderError)

  /** The lines printed for all interfaces, and the error that stopped the run, if any. */
  datatype Report = Report(out: seq<string>, failure: Option<ReportError>)

  /** Each interface's rendering, with whether more interfaces follow it. */
  function RenderedPairs(pairs: seq<(string, bool)>, peers: map<string, PeerInfo>, theme: Theme): (shown: seq<(Rendering, bool)>)
    ensures |shown| == |pairs|
  {
    if pairs == [] then []
    else [(Render(pairs[0].0, peers, theme), pairs[0].1)] + RenderedPairs(pairs[1..], peers, theme)
  }

  lemma {:induction false} RenderedPairsAt(pairs: seq<(string, bool)>, peers: map<string, PeerInfo>, theme: Theme, i: nat)
    requires i < |pairs|
    ensures RenderedPairs(pairs, peers, theme)[i] == (Render(pairs[i].0, peers, theme), pairs[i].1)
    decreases i
  {
    if i > 0 {
      RenderedPairsAt(pairs[1..], peers, theme, i - 1);
    }
  }

  /**
   * The report after the first k interfaces: each one's lines, then the
   * separator `"\n"` when more follow; the first failing interface ends it.
   */
  function ReportPrefix(shown: seq<(Rendering, bool)>, k: nat): Report
    requires k <= |shown|
    decreases k
  {
    if k == 0 then Report([], None)
    else
      var r := ReportPrefix(shown, k - 1);
      var (s, more) := shown[k - 1];
      if r.failure.Some? then r
      else if s.failure.Some? then Report(r.out + s.out, Some(RenderFailed(s.failure.value)))
      else Report(r.out + s.out + (if more then ["\n"] else []), None)
  }

  /** The whole report for the status texts of the interfaces, in order. */
  function ReportOf(texts: seq<string>, peers: map<string, PeerInfo>, theme: Theme): Report {
    if texts == [] then Report([], Some(NoInterfaces))
    else ReportPrefix(RenderedPairs(Flagged(texts), peers, theme), |texts|)
  }

  lemma {:induction false} ReportFailedSticks(shown: seq<(Rendering, bool)>, k: nat, n: nat)
    requires k <= n <= |shown|
    requires ReportPrefix(shown, k).failure.Some?
    ensures ReportPrefix(shown, n) == ReportPrefix(shown, k)
    decreases n
  {
    if n > k {
      ReportFailedSticks(shown, k, n - 1);
    }
  }

  lemma {:induction false} ReportPrefixOkIff(shown: seq<(Rendering, bool)>, k: nat)
    requires k <= |shown|
    ensures ReportPrefix(shown, k).failure.None? <==>
      forall i :: 0 <= i < k ==> shown[i].0.failure.None?
    decreases k
  {
    if k > 0 {
      ReportPrefixOkIff(shown, k - 1);
    }
  }

  /** The report completes exactly when there is an interface and every interface's output renders. */
  lemma ReportOkIff(texts: seq<string>, peers: map<string, PeerInfo>, theme: Theme)
    ensures ReportOf(texts, peers, theme).failure.None? <==>
      texts != [] && forall i :: 0 <= i < |texts| ==> Render(texts[i], peers, theme).failure.None?
  {
    if texts != [] {
      var shown := RenderedPairs(Flagged(texts), peers, theme);
      ReportPrefixOkIff(shown, |texts|);
      forall i | 0 <= i < |texts| ensures shown[i].0 == Render(texts[i], peers, theme) {
        FlaggedAt(texts, i);
        RenderedPairsAt(Flagged(texts), peers, theme, i);
      }
    }
  }

  /** The process-wide registry: public key to peer entry. */
  class Registry {
    var peers: map<string, PeerInfo>

    /**
     * Every stored address is free of ',' and '/'. The constructor sets it
     * up and every method that changes `peers` keeps it; it is a documented
     * invariant of the registry, and `ScanConfigsKeepsCleanAddresses` states
     * the same fact about the start-up scan on values.
     */
    ghost predicate Valid()
      reads this
    {
      CleanAddresses(peers)
    }

    /** `peers = {}` */
    constructor ()
      ensures Valid() && peers == map[]
    {
      peers := map[];
    }

    /** `read_config`: insert one entry per `[Peer]` marker, stopping at the first IndexError. */
    method ReadConfig(lines: seq<string>) returns (error: Option<ConfigError>)
      requires Valid()
      modifies this
      ensures Valid()
      ensures var s := Scan(lines, |lines|, old(peers));
        peers == s.peers && error == (if s.Failed? then Some(s.error) else None)
    {
      ghost var start := peers;
      var c := 0;
      while c < |lines|
        invariant 0 <= c <= |lines|
        invariant Scan(lines, c, start) == Scanning(peers)
      {
        c := c + 1;
        if IsMarker(lines[c - 1]) {
          var entry := ReadPeer(lines, c - 1);
          ScanMarker(lines, c - 1, start);
          if entry.Err? {
            error := Some(entry.error);
            ApplyFailedSticks(Effects(lines), c, |lines|, start);
            ScanKeepsCleanAddresses(lines, |lines|, start);
            return;
          }
          peers := peers[entry.value.0 := entry.value.1];
        } else {
          ScanPlain(lines, c - 1, start);
        }
      }
      error := None;
      ScanKeepsCleanAddresses(lines, |lines|, start);
    }

    /**
     * The body of `read_config`'s loop at a `[Peer]` marker with 1-based
     * counter c == i + 1: the name line, then the key line, then the
     * address line, each read only once the previous one was in range.
     */
    method ReadPeer(lines: seq<string>, i: nat) returns (entry: Result<(string, PeerInfo), ConfigError>)
      requires i < |lines|
      ensures entry == EntryAt(lines, i)
    {
      var c := i + 1;
      var name := Drop(PyIndex(lines, c - 2), NamePrefixLength);
      if |lines| <= c {
        return Err(LineIndexOutOfRange(c));
      }
      var key := Strip(Last(SplitOnce(lines[c], '=')));
      if |lines| <= c + 2 {
        return Err(LineIndexOutOfRange(c + 2));
      }
      var ip := Split(Split(Strip(Last(SplitOnce(lines[c + 2], '='))), ',')[0], '/')[0];
      return Ok((key, PeerInfo(name, ip, None)));
    }

    /** The start-up loop: `read_config` for every interface in turn. */
    method ReadConfigs(configs: seq<seq<string>>) returns (error: Option<ConfigError>)
      requires Valid()
      modifies this
      ensures Valid()
      ensures var s := ScanConfigs(configs, old(peers));
        peers == s.peers && error == (if s.Failed? then Some(s.error) else None)
    {
      ghost var start := peers;
      var n := 0;
      while n < |configs|
        invariant 0 <= n <= |configs|
        invariant Valid()
        invariant ScanConfigs(configs[n..], peers) == ScanConfigs(configs, start)
      {
        assert configs[n..][1..] == configs[n + 1..];
        error := ReadConfig(configs[n]);
        if error.Some? {
          return;
        }
        n := n + 1;
      }
      error := None;
    }

    /** What `ping` records: the peer is online exactly when the probe exited with status 0. */
    method RecordProbe(key: string, exitStatus: int)
      requires Valid() && key in peers
      modifies this
      ensures Valid()
      ensures peers == old(peers)[key := old(peers)[key].(online := Some(exitStatus == 0))]
    {
      peers := peers[key := peers[key].(online := Some(exitStatus == 0))];
    }

    /** `show_info`: the lines printed for one interface's status text, and the error that stopped it, if any. */
    method ShowInfo(text: string, theme: Theme) returns (out: seq<string>, failure: Option<RenderError>)
      ensures out == Render(text, peers, theme).out
      ensures failure == Render(text, peers, theme).failure
    {
      var lines := StatusLines(text);
      ghost var kinds := Parse(lines);
      assert Render(text, peers, theme) == RenderPrefix(kinds, |kinds|, peers, theme);
      var peerSection := false;
      out, failure := [], None;
      var i := 0;
      while i < |lines|
        invariant 0 <= i <= |lines|
        invariant RenderPrefix(kinds, i, peers, theme) == Rendering(out, peerSection, None)
        invariant failure == None
      {
        ParseAt(lines, i);
        assert RenderPrefix(kinds, i + 1, peers, theme) ==
          RenderStep(Rendering(out, peerSection, None), kinds[i], peers, theme);
        out, peerSection, failure := ShowLine(lines[i], out, peerSection, theme);
        if failure.Some? {
          RenderFailedSticks(kinds, i + 1, |kinds|, peers, theme);
          return;
        }
        i := i + 1;
      }
    }

    /**
     * One pass of the loop in `show_info`: strip the line, classify it, print
     * what it calls for or fail. Like the source, it builds the `interface:`
     * line inline; the ensures ties it to `InterfaceLine`.
     */
    method ShowLine(raw: string, printed: seq<string>, inPeerSection: bool, theme: Theme)
      returns (out: seq<string>, peerSection: bool, failure: Option<RenderError>)
      ensures Rendering(out, peerSection, failure) ==
        RenderStep(Rendering(printed, inPeerSection, None), Classify(raw), peers, theme)
    {
      out, peerSection, failure := printed, inPeerSection, None;
      var line := Strip(raw);
      if StartsWith(line, "peer:") {
        peerSection := true;
        assert line[..5][4] == ':';
        var key := Strip(SplitOnce(line, ':')[1]);
        out, failure := ShowPeer(key, printed, theme);
      } else if StartsWith(line, "interface:") {
        peerSection := false;
        assert line[..10][9] == ':';
        var name := Strip(SplitOnce(line, ':')[1]);
        out := out + [theme.yellowBold + "interface" + theme.end + ": " + theme.yellow + name + theme.end];
      } else if StartsWith(line, "preshared key:") || StartsWith(line, "private key:") {
      } else if line != "" {
        out, failure := ShowField(line, printed, inPeerSection, theme);
      } else {
        out := out + [line];
      }
    }

    /**
     * The `key: value` case of `show_info`: the IndexError for a line without
     * ':', else the indented attribute. Like the source, it builds the line
     * inline; the ensures ties it to `AttributeLine`.
     */
    method ShowField(line: string, printed: seq<string>, peerSection: bool, theme: Theme)
      returns (out: seq<string>, failure: Option<RenderError>)
      ensures Rendering(out, peerSection, failure) ==
        RenderStep(Rendering(printed, peerSection, None), ClassifyField(line), peers, theme)
    {
      var key := Strip(Split(line, ':')[0]);
      var parts := SplitOnce(line, ':');
      if |parts| < 2 {
        return printed, Some(MissingValue(line));
      }
      var value := Strip(parts[1]);
      var indent := if peerSection then "    " else "  ";
      out := printed + [indent + theme.bold + key + theme.end + ": " + value];
      failure := None;
    }

    /**
     * The `peer:` case of `show_info`: look the key up, choose the colours
     * from `online`, print the peer. Like the source, it picks the formats
     * and builds the line inline; the ensures ties it to `PeerLine`.
     */
    method ShowPeer(key: string, printed: seq<string>, theme: Theme) returns (out: seq<string>, failure: Option<RenderError>)
      ensures Rendering(out, true, failure) == RenderStep(Rendering(printed, false, None), PeerHeader(key), peers, theme)
    {
      if key !in peers {
        return printed, Some(UnknownPeer(key));
      }
      var online := match peers[key].online case None => true case Some(b) => b;
      var colorFmt, colorBoldFmt := theme.red, theme.redBold;
      if online {
        colorFmt, colorBoldFmt := theme.green, theme.greenBold;
      }
      out := printed + ["  " + colorBoldFmt + "peer" + theme.end + ": " + colorFmt + peers[key].name + " (" + key + ")" + theme.end];
      failure := None;
    }

    /** The main loop: every interface's status, with `"\n"` printed after each one that has more to come. */
    method ShowAll(texts: seq<string>, theme: Theme) returns (out: seq<string>, failure: Option<ReportError>)
      ensures Report(out, failure) == ReportOf(texts, peers, theme)
    {
      var flagged := Lookahead(texts);
      if flagged.Err? {
        return [], Some(NoInterfaces);
      }
      var pairs := flagged.value;
      ghost var shown := RenderedPairs(pairs, peers, theme);
      out, failure := [], None;
      var i := 0;
      while i < |pairs|
        invariant 0 <= i <= |pairs|
        invariant ReportPrefix(shown, i) == Report(out, None)
      {
        var text := pairs[i].0;
        var hasMore := pairs[i].1;
        var lines, err := ShowInfo(text, theme);
        RenderedPairsAt(pairs, peers, theme, i);
        assert shown[i] == (Rendering(lines, shown[i].0.peerSection, err), hasMore);
        out := out + lines;
        if err.Some? {
          failure := Some(RenderFailed(err.value));
          ReportFailedSticks(shown, i + 1, |pairs|);
          return;
        }
        if hasMore {
          out := out + ["\n"];
        }
        i := i + 1;
      }
    }
  }
}
