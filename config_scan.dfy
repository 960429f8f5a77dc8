/**
 * What `read_config` does to the peer registry, as functions on values:
 * the entry read around one `[Peer]` marker, and the registry after the
 * first k lines of a configuration have been scanned.
 *
 * A configuration is the list `readlines()` returns: each line keeps its
 * line terminator. The marker at 0-based index i stands for the loop's
 * 1-based counter c == i + 1, so the source's `cfg_lines[c-2]`,
 * `cfg_lines[c]` and `cfg_lines[c+2]` are the lines i - 1, i + 1 and i + 3.
 */
module ConfigScan {
  import opened Wrappers
  import opened PyText

  /**
   * One registry entry, the dict `{'name': ..., 'ip': ...}`; `online` is
   * the key a reachability probe adds later (absent until then).
   */
  datatype PeerInfo = PeerInfo(name: string, ip: string, online: Option<bool>)

  /** The IndexError raised when the configuration is indexed past its last line. */
  datatype ConfigError = LineIndexOutOfRange(index: nat)

  /** The registry state while scanning: still going, or stopped by an IndexError. */
  datatype ScanState =
    | Scanning(peers: map<string, PeerInfo>)
    | Failed(peers: map<string, PeerInfo>, error: ConfigError)

  const PeerMarker := "[Peer]"

  /** len("# BEGIN_PEER "): what the name line loses at its front. */
  const NamePrefixLength := 13

  predicate IsMarker(line: string) {
    Strip(line) == PeerMarker
  }

  /** `line.split('=', 1)[-1].strip()`: the value of a `Key = value` line. */
  function FieldValue(line: string): string {
    Strip(Last(SplitOnce(line, '=')))
  }

  /** `FieldValue(line).split(',')[0].split('/')[0]`: the first allowed address, without its prefix length. */
  function FirstAddress(line: string): string {
    Split(Split(FieldValue(line), ',')[0], '/')[0]
  }

  /** The name of the peer whose marker is at index i: the line before it (the last line when i is 0), minus 13 characters. */
  function NameAt(lines: seq<string>, i: nat): string
    requires i < |lines|
  {
    Drop(PyIndex(lines, i - 1), NamePrefixLength)
  }

  /** The public key and entry read around the marker at index i, or the IndexError. */
  function EntryAt(lines: seq<string>, i: nat): Result<(string, PeerInfo), ConfigError>
    requires i < |lines|
  {
    if |lines| <= i + 1 then Err(LineIndexOutOfRange(i + 1))
    else if |lines| <= i + 3 then Err(LineIndexOutOfRange(i + 3))
    else Ok((FieldValue(lines[i + 1]), PeerInfo(NameAt(lines, i), FirstAddress(lines[i + 3]), None)))
  }

  /** What one configuration line does to the registry: nothing, insert an entry, or raise an IndexError. */
  datatype LineEffect =
    | Keep
    | Insert(key: string, info: PeerInfo)
    | Raise(error: ConfigError)

  /** The effect of the line at index i: only a `[Peer]` marker reads further lines. */
  function EffectAt(lines: seq<string>, i: nat): LineEffect
    requires i < |lines|
  {
    if !IsMarker(lines[i]) then Keep
    else
      match EntryAt(lines, i)
      case Ok(entry) => Insert(entry.0, entry.1)
      case Err(e) => Raise(e)
  }

  /** The effects of the lines from index i on, in order. */
  function EffectsFrom(lines: seq<string>, i: nat): (effects: seq<LineEffect>)
    requires i <= |lines|
    ensures |effects| == |lines| - i
    decreases |lines| - i
  {
    if i == |lines| then [] else [EffectAt(lines, i)] + EffectsFrom(lines, i + 1)
  }

  /** The effect of every line, in order. */
  function Effects(lines: seq<string>): (effects: seq<LineEffect>)
    ensures |effects| == |lines|
  {
    EffectsFrom(lines, 0)
  }

  /** The registry after the first k effects, starting from `start`; a raised error ends the loop. */
  function Apply(effects: seq<LineEffect>, k: nat, start: map<string, PeerInfo>): ScanState
    requires k <= |effects|
    decreases k
  {
    if k == 0 then Scanning(start)
    else
      match Apply(effects, k - 1, start)
      case Failed(m, e) => Failed(m, e)
      case Scanning(m) =>
        match effects[k - 1]
        case Keep => Scanning(m)
        case Insert(key, info) => Scanning(m[key := info])
        case Raise(e) => Failed(m, e)
  }

  /** The registry after the first k lines have been scanned, starting from `start`. */
  function Scan(lines: seq<string>, k: nat, start: map<string, PeerInfo>): ScanState
    requires k <= |lines|
  {
    Apply(Effects(lines), k, start)
  }

  /** The registry after every configuration has been scanned in turn; the first IndexError stops the run. */
  function ScanConfigs(configs: seq<seq<string>>, start: map<string, PeerInfo>): ScanState
    decreases |configs|
  {
    if configs == [] then Scanning(start)
    else
      match Scan(configs[0], |configs[0]|, start)
      case Failed(m, e) => Failed(m, e)
      case Scanning(m) => ScanConfigs(configs[1..], m)
  }

  /** The marker at index j declares public key `key`. */
  predicate DeclaresKey(lines: seq<string>, j: nat, key: string)
    requires j < |lines|
  {
    IsMarker(lines[j]) && j + 1 < |lines| && FieldValue(lines[j + 1]) == key
  }

  /** No stored address contains a ',' or a '/'. */
  ghost predicate CleanAddresses(peers: map<string, PeerInfo>) {
    forall key :: key in peers ==> ',' !in peers[key].ip && '/' !in peers[key].ip
  }

  /** The three fields read around a marker, and when reading them fails. */
  lemma EntryFields(lines: seq<string>, i: nat)
    requires i < |lines|
    ensures EntryAt(lines, i).Ok? <==> i + 3 < |lines|
    ensures EntryAt(lines, i).Err? ==>
      EntryAt(lines, i).error == LineIndexOutOfRange(if i + 1 < |lines| then i + 3 else i + 1)
    ensures EntryAt(lines, i).Ok? ==>
      var line := lines[i + 1];
      var nameLine := if i == 0 then lines[|lines| - 1] else lines[i - 1];
      var entry := EntryAt(lines, i).value;
      && entry.0 == Strip(if '=' in line then line[FirstIndex(line, '=') + 1..] else line)
      && entry.1.name == (if |nameLine| <= 13 then "" else nameLine[13..])
      && entry.1.ip <= FieldValue(lines[i + 3])
      && ',' !in entry.1.ip && '/' !in entry.1.ip
      && (|entry.1.ip| == |FieldValue(lines[i + 3])|
          || FieldValue(lines[i + 3])[|entry.1.ip|] in {',', '/'})
      && entry.1.online == None
  {
    if i + 3 < |lines| {
      AddressIsClean(lines[i + 3]);
    }
  }

  /** The stored address is the `AllowedIPs` value up to its first ',' or '/' (or all of it when it has neither). */
  lemma AddressIsClean(line: string)
    ensures FirstAddress(line) <= FieldValue(line)
    ensures ',' !in FirstAddress(line) && '/' !in FirstAddress(line)
    ensures var v := FieldValue(line); var n := |FirstAddress(line)|;
      n == |v| || v[n] == ',' || v[n] == '/'
  {
    var v := FieldValue(line);
    var a := Split(v, ',')[0];
    var ip := Split(a, '/')[0];
    SplitParts(v, ',');
    SplitParts(a, '/');
    assert ip <= a <= v;
    if |ip| < |a| {
      assert v[|ip|] == a[|ip|] == '/';
    }
    forall c | c in ip ensures c in a {
      var k :| 0 <= k < |ip| && ip[k] == c;
      assert a[k] == c;
    }
  }

  /** The effect of a line, in the source's terms. */
  lemma EffectOfLine(lines: seq<string>, i: nat)
    requires i < |lines|
    ensures Effects(lines)[i].Keep? <==> !IsMarker(lines[i])
    ensures Effects(lines)[i].Raise? <==> IsMarker(lines[i]) && |lines| <= i + 3
    ensures Effects(lines)[i].Raise? ==>
      Effects(lines)[i].error == LineIndexOutOfRange(if i + 1 < |lines| then i + 3 else i + 1)
    ensures Effects(lines)[i].Insert? ==>
      && i + 3 < |lines|
      && DeclaresKey(lines, i, Effects(lines)[i].key)
      && Effects(lines)[i].info == EntryAt(lines, i).value.1
      && ',' !in Effects(lines)[i].info.ip && '/' !in Effects(lines)[i].info.ip
  {
    EffectsAt(lines, i);
    if i + 3 < |lines| {
      AddressIsClean(lines[i + 3]);
    }
  }

  /** The effect listed at position j - i from index i on is the effect of line j. */
  lemma {:induction false} EffectsFromAt(lines: seq<string>, i: nat, j: nat)
    requires i <= j < |lines|
    ensures EffectsFrom(lines, i)[j - i] == EffectAt(lines, j)
    decreases j - i
  {
    if i < j {
      EffectsFromAt(lines, i + 1, j);
    }
  }

  /** The effect listed for line i is the effect of line i. */
  lemma EffectsAt(lines: seq<string>, i: nat)
    requires i < |lines|
    ensures Effects(lines)[i] == EffectAt(lines, i)
  {
    EffectsFromAt(lines, 0, i);
  }

  /** One step at a `[Peer]` marker: the entry read around it is inserted, or its IndexError ends the scan. */
  lemma ScanMarker(lines: seq<string>, k: nat, start: map<string, PeerInfo>)
    requires k < |lines| && IsMarker(lines[k]) && Scan(lines, k, start).Scanning?
    ensures Scan(lines, k + 1, start) ==
      match EntryAt(lines, k)
      case Ok(entry) => Scanning(Scan(lines, k, start).peers[entry.0 := entry.1])
      case Err(e) => Failed(Scan(lines, k, start).peers, e)
  {
    EffectsAt(lines, k);
  }

  /** One step at any other line: the registry stays as it was. */
  lemma ScanPlain(lines: seq<string>, k: nat, start: map<string, PeerInfo>)
    requires k < |lines| && !IsMarker(lines[k])
    ensures Scan(lines, k + 1, start) == Scan(lines, k, start)
  {
    EffectsAt(lines, k);
  }

  /** The registry does not change while every effect is `Keep`. */
  lemma {:induction false} ApplyKeeps(effects: seq<LineEffect>, k: nat, start: map<string, PeerInfo>)
    requires k <= |effects|
    requires forall i :: 0 <= i < k ==> effects[i].Keep?
    ensures Apply(effects, k, start) == Scanning(start)
    decreases k
  {
    if k > 0 {
      ApplyKeeps(effects, k - 1, start);
    }
  }

  /** Once the loop has raised, later lines change nothing. */
  lemma {:induction false} ApplyFailedSticks(effects: seq<LineEffect>, k: nat, n: nat, start: map<string, PeerInfo>)
    requires k <= n <= |effects|
    requires Apply(effects, k, start).Failed?
    ensures Apply(effects, n, start) == Apply(effects, k, start)
    decreases n
  {
    if n > k {
      ApplyFailedSticks(effects, k, n - 1, start);
    }
  }

  /** The loop raises exactly when one of the effects it reaches is a `Raise`. */
  lemma {:induction false} ApplyFailsIff(effects: seq<LineEffect>, k: nat, start: map<string, PeerInfo>)
    requires k <= |effects|
    ensures Apply(effects, k, start).Failed? <==> exists i :: 0 <= i < k && effects[i].Raise?
    decreases k
  {
    if k > 0 {
      ApplyFailsIff(effects, k - 1, start);
    }
  }

  /** The first `Raise` decides the error and freezes the registry as it was just before it. */
  lemma ApplyFailurePoint(effects: seq<LineEffect>, f: nat, start: map<string, PeerInfo>)
    requires f < |effects| && effects[f].Raise?
    requires forall i :: 0 <= i < f ==> !effects[i].Raise?
    ensures Apply(effects, |effects|, start) == Failed(Apply(effects, f, start).peers, effects[f].error)
  {
    ApplyFailsIff(effects, f, start);
    ApplyFailedSticks(effects, f + 1, |effects|, start);
  }

  /** A key holds the entry of the last `Insert` for it. */
  lemma {:induction false} ApplyLastWriteWins(effects: seq<LineEffect>, k: nat, start: map<string, PeerInfo>, i: nat)
    requires i < k <= |effects| && effects[i].Insert?
    requires Apply(effects, k, start).Scanning?
    requires forall j :: i < j < k ==> !(effects[j].Insert? && effects[j].key == effects[i].key)
    ensures effects[i].key in Apply(effects, k, start).peers
    ensures Apply(effects, k, start).peers[effects[i].key] == effects[i].info
    decreases k
  {
    if k - 1 > i {
      ApplyLastWriteWins(effects, k - 1, start, i);
    }
  }

  /** A key no `Insert` names keeps its entry, or stays absent. */
  lemma {:induction false} ApplyOtherKeysUnchanged(effects: seq<LineEffect>, k: nat, start: map<string, PeerInfo>, key: string)
    requires k <= |effects|
    requires forall j :: 0 <= j < k ==> !(effects[j].Insert? && effects[j].key == key)
    ensures key in Apply(effects, k, start).peers <==> key in start
    ensures key in start ==> Apply(effects, k, start).peers[key] == start[key]
    decreases k
  {
    if k > 0 {
      ApplyOtherKeysUnchanged(effects, k - 1, start, key);
    }
  }

  /** Without a `Raise`, the keys are the starting keys plus those the `Insert`s name. */
  lemma {:induction false} ApplyKeys(effects: seq<LineEffect>, k: nat, start: map<string, PeerInfo>, key: string)
    requires k <= |effects|
    requires Apply(effects, k, start).Scanning?
    ensures key in Apply(effects, k, start).peers <==>
      key in start || exists j :: 0 <= j < k && effects[j].Insert? && effects[j].key == key
    decreases k
  {
    if k > 0 {
      ApplyKeys(effects, k - 1, start, key);
    }
  }

  /** Inserting only clean addresses keeps every address clean. */
  lemma {:induction false} ApplyKeepsCleanAddresses(effects: seq<LineEffect>, k: nat, start: map<string, PeerInfo>)
    requires k <= |effects|
    requires CleanAddresses(start)
    requires forall j :: 0 <= j < k && effects[j].Insert? ==> ',' !in effects[j].info.ip && '/' !in effects[j].info.ip
    ensures CleanAddresses(Apply(effects, k, start).peers)
    decreases k
  {
    if k > 0 {
      ApplyKeepsCleanAddresses(effects, k - 1, start);
    }
  }

  /** A configuration without a `[Peer]` line leaves the registry as it was. */
  lemma ScanWithoutMarkers(lines: seq<string>, k: nat, start: map<string, PeerInfo>)
    requires k <= |lines|
    requires forall i :: 0 <= i < k ==> !IsMarker(lines[i])
    ensures Scan(lines, k, start) == Scanning(start)
  {
    forall i | 0 <= i < k ensures Effects(lines)[i].Keep? {
      EffectOfLine(lines, i);
    }
    ApplyKeeps(Effects(lines), k, start);
  }

  /** The scan stops with an IndexError exactly when some marker sits within the last three lines. */
  lemma ScanFailsIff(lines: seq<string>, k: nat, start: map<string, PeerInfo>)
    requires k <= |lines|
    ensures Scan(lines, k, start).Failed? <==>
      exists i :: 0 <= i < k && IsMarker(lines[i]) && |lines| <= i + 3
  {
    forall i | 0 <= i < k ensures Effects(lines)[i].Raise? <==> IsMarker(lines[i]) && |lines| <= i + 3 {
      EffectOfLine(lines, i);
    }
    ApplyFailsIff(Effects(lines), k, start);
  }

  /**
   * The first marker too close to the end decides the error, and the
   * registry keeps every entry the markers before it inserted.
   */
  lemma ScanFailurePoint(lines: seq<string>, f: nat, start: map<string, PeerInfo>)
    requires f < |lines| && IsMarker(lines[f]) && |lines| <= f + 3
    requires forall i :: 0 <= i < f && IsMarker(lines[i]) ==> i + 3 < |lines|
    ensures Scan(lines, |lines|, start) ==
      Failed(Scan(lines, f, start).peers, LineIndexOutOfRange(if f + 1 < |lines| then f + 3 else f + 1))
  {
    forall i | 0 <= i <= f ensures Effects(lines)[i].Raise? <==> IsMarker(lines[i]) && |lines| <= i + 3 {
      EffectOfLine(lines, i);
    }
    EffectOfLine(lines, f);
    ApplyFailurePoint(Effects(lines), f, start);
  }

  /**
   * Last write wins: the entry stored for a key is the one read at the
   * last marker (among the first k lines) that declares that key.
   */
  lemma ScanLastWriteWins(lines: seq<string>, k: nat, start: map<string, PeerInfo>, i: nat, key: string)
    requires i < k <= |lines|
    requires Scan(lines, k, start).Scanning?
    requires DeclaresKey(lines, i, key)
    requires forall j :: i < j < k ==> !DeclaresKey(lines, j, key)
    ensures EntryAt(lines, i).Ok?
    ensures key in Scan(lines, k, start).peers
    ensures Scan(lines, k, start).peers[key] == EntryAt(lines, i).value.1
  {
    var effects := Effects(lines);
    ApplyFailsIff(effects, k, start);
    EffectOfLine(lines, i);
    assert effects[i].Insert? && effects[i].key == key;
    forall j | i < j < k ensures !(effects[j].Insert? && effects[j].key == key) {
      EffectOfLine(lines, j);
    }
    ApplyLastWriteWins(effects, k, start, i);
  }

  /** A key no marker declares is exactly as it was before the scan. */
  lemma ScanOtherKeysUnchanged(lines: seq<string>, k: nat, start: map<string, PeerInfo>, key: string)
    requires k <= |lines|
    requires forall j :: 0 <= j < k ==> !DeclaresKey(lines, j, key)
    ensures key in Scan(lines, k, start).peers <==> key in start
    ensures key in start ==> Scan(lines, k, start).peers[key] == start[key]
  {
    forall j | 0 <= j < k ensures !(Effects(lines)[j].Insert? && Effects(lines)[j].key == key) {
      EffectOfLine(lines, j);
    }
    ApplyOtherKeysUnchanged(Effects(lines), k, start, key);
  }

  /** After a successful scan, the keys are the old keys plus the keys the markers declare. */
  lemma ScanKeys(lines: seq<string>, k: nat, start: map<string, PeerInfo>, key: string)
    requires k <= |lines|
    requires Scan(lines, k, start).Scanning?
    ensures key in Scan(lines, k, start).peers <==>
      key in start || exists j :: 0 <= j < k && DeclaresKey(lines, j, key)
  {
    var effects := Effects(lines);
    ApplyFailsIff(effects, k, start);
    forall j | 0 <= j < k ensures effects[j].Insert? && effects[j].key == key <==> DeclaresKey(lines, j, key) {
      EffectOfLine(lines, j);
    }
    ApplyKeys(effects, k, start, key);
  }

  /** Scanning only ever stores addresses free of ',' and '/'. */
  lemma ScanKeepsCleanAddresses(lines: seq<string>, k: nat, start: map<string, PeerInfo>)
    requires k <= |lines|
    requires CleanAddresses(start)
    ensures CleanAddresses(Scan(lines, k, start).peers)
  {
    forall j | 0 <= j < k && Effects(lines)[j].Insert?
      ensures ',' !in Effects(lines)[j].info.ip && '/' !in Effects(lines)[j].info.ip
    {
      EffectOfLine(lines, j);
    }
    ApplyKeepsCleanAddresses(Effects(lines), k, start);
  }

  /** Scanning several configurations in turn keeps the addresses clean too. */
  lemma {:induction false} ScanConfigsKeepsCleanAddresses(configs: seq<seq<string>>, start: map<string, PeerInfo>)
    requires CleanAddresses(start)
    ensures CleanAddresses(ScanConfigs(configs, start).peers)
    decreases |configs|
  {
    if configs != [] {
      ScanKeepsCleanAddresses(configs[0], |configs[0]|, start);
      if Scan(configs[0], |configs[0]|, start).Scanning? {
        ScanConfigsKeepsCleanAddresses(configs[1..], Scan(configs[0], |configs[0]|, start).peers);
      }
    }
  }
}
