# wg-info: peer registry, status rendering and lookahead, in Dafny

`wg-info` prints the status of every WireGuard interface on a host. It does
this in two steps:

1. It reads each interface's configuration and builds a process-wide
   registry `peers`. The registry maps a peer's public key to the peer's
   name and first allowed address.
2. It walks the output of `wg show <interface>`. Each `peer:` line shows
   the peer's registry name, followed by its key in parentheses. Lines are
   indented and coloured by a theme. Peers that a `ping` probe found
   offline are shown in red.

This project models that core and proves what it does.

Modules:

- `PyText` (pytext.dfy): the Python string operations the script relies
  on, each with CPython's semantics:
  - `str.strip()` over the characters `str.isspace` accepts;
  - `str.startswith`;
  - `str.split(sep)` and `str.split(sep, 1)`;
  - `s[n:]`;
  - list indexing with a negative index.
- `ConfigScan` (config_scan.dfy): `read_config` as functions on values.
  - `EntryAt` gives the entry read around one `[Peer]` marker.
  - `EffectAt` gives what one line does to the registry: nothing, an
    insertion, or an IndexError. `Apply` folds a list of such effects.
  - `Scan` gives the registry after the first k configuration lines.
  - `ScanConfigs` runs the scan over every interface in turn.
- `StatusRender` (status_render.dfy): `show_info` as functions on values.
  - `Classify` reads one status line as a `LineKind`.
  - `RenderStep` and `RenderPrefix` give the printed lines, the
    `peer_section` flag and the error that stopped the walk.
  - The `LineKind` readings follow the order of the source's `if`/`elif`
    chain.
- `Generators` (lookahead.dfy): the `lookahead` generator. It is a method
  with the source's loop over a held-back `last` element, and a functional
  specification `Flagged`.
- `WgInfo` (wg_info.dfy): the class `Registry`. Its field `peers` is the
  global dict. Its methods are the script's procedures, written as loops
  and proved against the functions above:
  - `ReadConfig`: `read_config`;
  - `ReadConfigs`: the start-up loop;
  - `RecordProbe`: the write `ping` makes;
  - `ShowInfo`: `show_info`, with `ShowLine`, `ShowPeer` and `ShowField`;
  - `ShowAll`: the final loop over `lookahead`.

  `Valid()` is the class invariant: no stored address contains `,` or `/`.

A configuration is the list `readlines()` returns, so each line keeps its
terminator. A status text is the decoded output of `wg show`. An output
sequence lists the arguments of the `print` calls, in order. A failing
operation returns the error together with everything printed or inserted
before it, because the source prints and updates the dict as it goes.
The theme's format strings are parameters (`Theme`).

How the code reads its inputs, which the model follows exactly:

- `read_config` counts lines from 1 (`c`), so at a `[Peer]` marker with
  0-based index i the name is read from line i-1 (`cfg_lines[c-2]`), the
  key from line i+1 (`cfg_lines[c]`) and the address from line i+3
  (`cfg_lines[c+2]`).
- A marker on the first line takes its name from the last line, because
  Python's `cfg_lines[-1]` wraps around.
- The name is the line minus its first 13 characters (`[13:]`), so it keeps
  its trailing newline, and the model prints it that way.
- A configuration that ends too soon after a marker raises IndexError. The
  entries inserted before that marker stay in the registry. Python's
  IndexError carries no index; the model's `LineIndexOutOfRange` adds the
  index that was out of range as extra information.
- A non-empty status line without `:` that is not a header or a hidden key
  raises IndexError at `split(':', 1)[1]` (`MissingValue`).

## Model

| member | source | states |
|---|---|---|
| `ConfigScan.EntryFields` | wg-info-Nyr.py:56-64 | For a marker at index i, reading succeeds iff line i+3 exists. Otherwise the IndexError names index i+1 or i+3, whichever is missing first. The key is line i+1 after its first `=`, stripped (the whole stripped line if there is no `=`). The name is line i-1 (the last line when i is 0) minus its first 13 characters, unstripped. The address is line i+3's stripped value up to its first `,` or `/` (all of it when it has neither). `online` is absent. |
| `ConfigScan.AddressIsClean` | wg-info-Nyr.py:60 | The stored address is a prefix of the stripped `AllowedIPs` value that contains neither `,` nor `/` and ends where the value ends or at a `,` or `/`: the text before the first `,`, then before the first `/`. |
| `ConfigScan.ScanWithoutMarkers` | wg-info-Nyr.py:53-56 | A configuration with no line that strips to `[Peer]` leaves the registry unchanged and raises nothing. |
| `ConfigScan.ScanFailsIff` | wg-info-Nyr.py:53-60 | The scan raises IndexError iff some marker lies within the last three lines. |
| `ConfigScan.ScanFailurePoint` | wg-info-Nyr.py:53-64 | The first marker too close to the end decides the error index. The registry keeps exactly what the markers before it inserted. |
| `ConfigScan.ApplyFailedSticks` | wg-info-Nyr.py:53-60 | After an IndexError no later line changes the state (the exception ends the loop). |
| `ConfigScan.EffectOfLine` | wg-info-Nyr.py:56-64 | A line that does not strip to `[Peer]` changes nothing. A marker raises IndexError iff line i+3 is missing, naming index i+1 or i+3. Otherwise it inserts the entry it declares, and that entry's address is clean. |
| `ConfigScan.ScanMarker` | wg-info-Nyr.py:56-64 | One pass at a marker, while the scan is still running: the read entry is inserted, or the scan fails with the read error and the registry as it stood. |
| `ConfigScan.ScanPlain` | wg-info-Nyr.py:53-56 | One pass at any other line leaves the scan state as it was. |
| `PyText.StripTrims` | wg-info-Nyr.py:55 | `strip()` removes exactly the whitespace runs at both ends: the result is a slice whose outside is all whitespace and whose ends are not whitespace, and a line without whitespace at its ends is returned unchanged. |
| `PyText.SplitOnceParts` | wg-info-Nyr.py:59 | `split("=", 1)` gives a first piece free of `=` that is a prefix of the text. With two pieces, the text is the first, `=`, and the second; with one piece, that piece is the whole text. |
| `PyText.SplitParts` | wg-info-Nyr.py:60 | No piece of `split(sep)` contains `sep`, and the first piece is a prefix of the text that ends where the text ends or at a `sep`. |
| `ConfigScan.ScanLastWriteWins` | wg-info-Nyr.py:61-64 | After a successful scan, a key holds the entry read at the last marker that declares it. |
| `ConfigScan.ScanOtherKeysUnchanged` | wg-info-Nyr.py:61-64 | A key that no marker declares is present iff it was before, with the same entry. |
| `ConfigScan.ScanKeys` | wg-info-Nyr.py:61-64 | After a successful scan, a key is present iff it was present before or some marker declares it. |
| `ConfigScan.ScanKeepsCleanAddresses` | wg-info-Nyr.py:60-64 | Scanning never stores an address containing `,` or `/`. |
| `ConfigScan.ScanConfigsKeepsCleanAddresses` | wg-info-Nyr.py:117-118 | The same holds across all interfaces scanned in turn. |
| `PyText.JoinSplit` | wg-info-Nyr.py:68 | Joining the pieces of `split("\n")` with the separator gives back the text. |
| `PyText.SplitJoin` | wg-info-Nyr.py:68 | Splitting a join of separator-free pieces gives back the pieces. |
| `StatusRender.StatusLinesOf` | wg-info-Nyr.py:68 | The walked lines contain no newline. The text is those lines, each followed by a newline, plus the dropped final piece of the split. |
| `StatusRender.HeaderReading` | wg-info-Nyr.py:70-82 | A stripped line starting with `peer:` reads as a peer header whose key is the stripped rest after `peer:`. Otherwise a line starting with `interface:` reads as an interface header named by the stripped rest. |
| `StatusRender.FieldReading` | wg-info-Nyr.py:86-88 | Any other non-empty line reads as an attribute iff it holds a `:`. The key is the stripped text before the first `:` and the value the stripped text after it. Without a `:` the line is the IndexError case. |
| `StatusRender.RenderFailsIff` | wg-info-Nyr.py:70-92 | The walk fails iff some line is a peer header whose key is not in the registry, or a value-less line. |
| `StatusRender.RenderFailurePoint` | wg-info-Nyr.py:70-92 | The first failing line decides the error: `UnknownPeer(key)` for the KeyError at line 73, `MissingValue(line)` for the IndexError at line 88. The output is exactly what the earlier lines printed, and nothing is printed for the failing line. |
| `StatusRender.RenderFailedSticks` | wg-info-Nyr.py:68-92 | After a failure no later line changes the output. |
| `StatusRender.RenderCount` | wg-info-Nyr.py:84-92 | Without failure, exactly one line is printed per input line that is not a `preshared key:` or `private key:` line. |
| `StatusRender.PeerSectionIff` | wg-info-Nyr.py:67-81 | The `peer_section` flag is set iff a `peer:` line has been seen since the last `interface:` line (false before any header). |
| `StatusRender.RenderLineAt` | wg-info-Nyr.py:70-92 | Line order is kept: the i-th shown input line prints the (number of shown lines before i)-th output line. A peer prints `  <bold>peer<end>: <fmt>name (key)<end>` in the green formats unless `online` is false, and then in the red ones. An interface prints `<yellow bold>interface<end>: <yellow>name<end>`. An attribute prints `<indent><bold>key<end>: value`, indented four spaces in a peer section and two otherwise. A blank line prints `""`. |
| `Generators.FlaggedAt` | wg-info-Nyr.py:99-113 | The i-th pair is the i-th element with flag true, except the last, whose flag is false. |
| `Generators.Lookahead` | wg-info-Nyr.py:99-113 | Fails (RuntimeError from the first `next`) iff the input is empty. Otherwise yields one pair per element, in order, with the flag false for the last element only. |
| `WgInfo.ReportPrefixOkIff` | wg-info-Nyr.py:134-137 | The report over the first k interfaces completes iff each of them renders without failure. |
| `WgInfo.ReportFailedSticks` | wg-info-Nyr.py:134-137 | After one interface fails, no later interface adds output. |
| `WgInfo.ReportOkIff` | wg-info-Nyr.py:134-137 | The report completes iff there is at least one interface and every interface's status renders without failure. |
| `WgInfo.Registry.constructor` | wg-info-Nyr.py:40 | The registry starts empty and valid. |
| `WgInfo.Registry.ReadConfig` | wg-info-Nyr.py:43-64 | The loop with 1-based counter `c` leaves exactly the registry and error of `Scan` over the whole configuration, and keeps addresses clean. |
| `WgInfo.Registry.ReadPeer` | wg-info-Nyr.py:57-60 | The three reads around a marker (name, key, address) return exactly `EntryAt`, including the IndexError at the first missing line. |
| `WgInfo.Registry.ReadConfigs` | wg-info-Nyr.py:117-118 | Reading every interface's configuration in turn gives the registry and error of `ScanConfigs`. |
| `WgInfo.Registry.RecordProbe` | wg-info-Nyr.py:97 | Only the probed peer's entry changes: `online` becomes true iff the probe's exit status is 0. |
| `WgInfo.Registry.ShowInfo` | wg-info-Nyr.py:66-92 | The loop over `split("\n")[:-1]` prints exactly the lines of `Render` and stops with its error. |
| `WgInfo.Registry.ShowLine` | wg-info-Nyr.py:69-92 | One loop pass: strip, then the `if`/`elif` chain, gives the step `RenderStep` takes for the line's reading. |
| `WgInfo.Registry.ShowPeer` | wg-info-Nyr.py:73-79 | The registry lookup (failing with the key) and the colour choice from `online` give the peer step. |
| `WgInfo.Registry.ShowField` | wg-info-Nyr.py:86-90 | Key and value extraction (failing without `:`) and the indentation give the attribute step. |
| `WgInfo.Registry.ShowAll` | wg-info-Nyr.py:134-137 | The loop over `lookahead(interfaces)` prints each interface's lines, then `"\n"` when more follow, and stops at the first failure. With no interfaces it fails before printing anything. |

## Left out

- Reading `/etc/wireguard/<interface>.conf` and listing interfaces with `os.listdir`: file I/O. Each configuration is given as its list of lines, and the interfaces as a list in listing order.
- Running `wg show` through `subprocess` and decoding it as UTF-8: a foreign process. Its decoded output is given as a string, so a failing command (CalledProcessError) and a decoding error are not modelled.
- `ping` and its threads (lines 122-129, run only when `ping` is among the command-line arguments): an external process plus concurrency. `RecordProbe` models the registry write one finished probe makes, with the exit status as a parameter. The loop that starts one probe per registered peer, the parallel fan-out and the join are not modelled.
- Theme selection from `sys.argv` and `isatty`, and the HTML header and footer prints: presentation and environment. The format strings are parameters.
- Printing to standard output: the model returns the sequence of `print` arguments instead.
- `Generators.Lookahead`: returns all pairs at once. The source's generator is lazy, but its only consumer runs over a list that already exists, so the order of what is printed does not change.
