# Network interface check, modelled in Dafny

This project models the Sensu check `network-inerface-check.go`. The check reads
Linux's per-interface attribute tree under `/sys/class/net/` and builds one
`InterfaceStatus` record per interface. It then reduces the records to a
"Problem interfaces: …" summary and an exit code: 0 healthy, 1 degraded, 2 failed.

The model has these modules:

- `Faults`: `Option`, and `Result`, whose error side is the `panic` the
  program raises when a checked read fails or a path is too short.
- `Text`: the Go library behaviour the check relies on.
  - `strings.Split`, `TrimSpace` (with Go's Unicode white space),
    `HasPrefix` and `Replace(s, pat, "", -1)`.
  - `Join`, which the program does not call. It is the inverse that the
    `Split` round trips are stated with.
  - `strconv.Atoi`, with Go's 64-bit `int`.
- `Records`: the `InterfaceStatus`, `BridgeInterfaces` and `BondInterfaces`
  records, and `Syspath`.
- `Discovery`: `getIfs`.
  - It parses the `auto` lines of `/etc/network/interfaces` in "ubuntu" mode.
  - It keeps symlinks other than `lo` in default mode.
  - It also holds the alias filter of `processIfInfo`.
- `Sysfs`: `getIfInfo` over an abstract attribute `Store`. The store is a map
  from file paths to contents plus a map from directories to their entries.
  - A specification function, `Snapshot`, gives the record built for a path,
    or the panic.
  - An imperative builder, `ReadSnapshot`, is proved equal to it.
- `Evaluator`: `sensuIfStatus`, `checkIfBridge` and `stringInSlice`.
  - The summary is modelled as a list of findings (`Token`) that `Render` turns
    into the exact text the program appends.
  - The evaluation is a left fold (`Run`/`Step`).
  - The imperative `SensuIfStatus` loop is proved to build exactly
    `Summary(Evaluate(...))` and the same exit code.
- `Checker`: the global `InterfacesInfo` slice as a `Collector` class, together
  with `processIfInfo` and `main`. `main` here has no flag parsing or printing.
  It also states whole-run properties.
- `Scenarios`: small concrete runs of the evaluator.

### Behaviour worth knowing

- The exit code is not the maximum severity of the findings. A bond with a
  missing or extra slave and a slave that is not up sets the code to exactly 1,
  even after an earlier 2 (`Scenarios.LaterBondSlaveLowersCode`). An
  "unknown" interface raises a code of 0 to 1 and leaves any other code alone.
- The bridge case applies to an interface that is a port of some bridge
  (`checkIfBridge(item.name)`). That case walks the interface's own port list.
  - A bridge whose ports are plain interfaces is therefore evaluated like any
    other interface, and its blocked ports are not reported
    (`Scenarios.BridgePortNotReportedFromBridge`).
  - A port of a bridge is never reported as down
    (`Scenarios.BridgePortDownHidden`).
  - Only a bridge nested in another bridge reports its own ports
    (`Scenarios.NestedBridgeReported`).
- Once the exit code is non-zero, the bridge case reports nothing more
  (`Evaluator.BridgeFindingsAfterProblem`).
- `strings.Replace(v, "lo ", "", -1)` removes only `lo` followed by a space.
  - A line ending in `auto lo` still yields `/sys/class/net/lo`
    (`Discovery.AutoLoAtEndOfLine`).
  - The text is removed inside other words as well
    (`Text.RemoveInsideWord`).
- A record that is not a bond carries `bondoperst = true` and `bondifnum = 0`.
  A bond whose slaves file is empty, or whose port count does not parse, is
  not "fully operational" (`Sysfs.UnparsablePortCount`).
- Of the six scalar reads, only the `tx_queue_len` read can abort. The errors
  of the `operstate`, `carrier`, `mtu`, `duplex` and `speed` reads are
  overwritten before the single `check`, so a missing file yields "".
- The `bonding/slaves` read is unchecked. Its contents are split on single
  spaces after trimming, so a slaves file holding only white space yields
  one slave with an empty name.

## Model

| member | source | states |
|---|---|---|
| Text.Split | network-inerface-check.go:64 | `strings.Split` yields at least one piece, and no piece contains the separator |
| Text.JoinSplit | network-inerface-check.go:64 | joining the pieces of a split with the separator gives back the text |
| Text.SplitJoin | network-inerface-check.go:185 | splitting the join of separator-free pieces gives back the pieces |
| Text.SplitNoSeparator | network-inerface-check.go:185 | a text without the separator splits into itself alone |
| Text.SplitAfterPiece | network-inerface-check.go:145 | a separator-free piece followed by the separator splits off as the first piece |
| Text.SplitWithin | network-inerface-check.go:64 | every character of a piece occurs in the text |
| Text.TrimLeftShape | network-inerface-check.go:120 | the trimmed text is a suffix of the input and does not start with white space |
| Text.TrimRightShape | network-inerface-check.go:120 | the trimmed text is a prefix of the input and does not end with white space |
| Text.TrimLeftDropsSpace | network-inerface-check.go:120 | everything removed on the left is white space |
| Text.TrimRightDropsSpace | network-inerface-check.go:120 | everything removed on the right is white space |
| Text.TrimSpaceShape | network-inerface-check.go:144-150 | `TrimSpace` trims left then right; the result is no longer than the text and has no white space at either end |
| Text.TrimSpaceSpec | network-inerface-check.go:144-150 | the result is a contiguous block of the text, with only white space before and after it |
| Text.TrimSpaceWithin | network-inerface-check.go:101 | every character of the trimmed text occurs in the text |
| Text.TrimSpaceOfTrimmed | network-inerface-check.go:101 | trimming an already trimmed text changes nothing |
| Text.RemoveAllShrinks | network-inerface-check.go:63 | removing every occurrence of a pattern never lengthens the text or adds characters |
| Text.RemoveAllLeftmost | network-inerface-check.go:63 | removal starts at the leftmost occurrence: the text before it is kept, the occurrence dropped, and scanning resumes after it, so removed occurrences never overlap |
| Text.RemoveInsideWord | network-inerface-check.go:63 | `lo ` is removed inside a word too: "auto hello eth0" becomes "auto heleth0" |
| Text.RemoveAllAbsent | network-inerface-check.go:63 | a text without the pattern is unchanged |
| Text.Atoi | network-inerface-check.go:132 | an accepted number fits the 64-bit range, is written as an optional sign followed by at least one digit, and is negative only after a minus sign |
| Text.AtoiDecimal | network-inerface-check.go:132-135 | the decimal numeral of every non-negative 64-bit value parses back to that value |
| Text.DigitsValueDecimal | network-inerface-check.go:132 | the digits of the decimal numeral of `n` have the value `n` |
| Evaluator.StringInSlice | network-inerface-check.go:263-270 | true exactly when the name is in the list |
| Evaluator.InBridgeList | network-inerface-check.go:240-244 | true exactly when some port of the list has the name |
| Evaluator.CheckIfBridge | network-inerface-check.go:238-249 | true exactly when some collected record lists the name among its bridge ports |
| Evaluator.SummaryAppend | network-inerface-check.go:199 | appending a finding appends exactly its rendered text to the summary |
| Evaluator.ReportBridgePorts | network-inerface-check.go:197-202 | the port loop leaves exactly the summary and code of the bridge-case specification |
| Evaluator.ReportBondSlaves | network-inerface-check.go:205-211 | the slave loop leaves exactly the summary and code of the bond-case specification |
| Evaluator.SensuIfStatus | network-inerface-check.go:182-235 | the returned text is the header followed by the rendered findings of `Evaluate`, and the code is its code |
| Evaluator.BridgeFindingsAfterProblem | network-inerface-check.go:198 | once the code is non-zero the bridge case adds nothing |
| Evaluator.BridgeFindingsAllForwarding | network-inerface-check.go:197-202 | a bridge case whose ports all forward (state "3") adds nothing |
| Evaluator.BridgeFindingsFirst | network-inerface-check.go:197-202 | with code 0, exactly the first non-forwarding port is reported, and the code becomes 2 |
| Evaluator.FirstNotForwarding | network-inerface-check.go:197-202 | if some port does not forward, there is a first such port |
| Evaluator.BondFindingsReports | network-inerface-check.go:205-210 | the slave loop appends exactly one finding per slave that is not up, naming that slave and the bond, in slave order; the code becomes 1 when there is one and is kept otherwise |
| Evaluator.BondFindingsEffect | network-inerface-check.go:205-211 | the slave loop only appends slave findings; any slave not up gives code 1 and a new finding; all slaves up change nothing |
| Evaluator.StepSeverity | network-inerface-check.go:187-231 | the exit code after one record, case by case: ignored, bridge port, partial bond, full bond, unknown, down, other |
| Evaluator.StepExtends | network-inerface-check.go:187-231 | one record only appends findings to the summary |
| Evaluator.StepConsistent | network-inerface-check.go:187-231 | one record keeps the code in 0..2, code 0 exactly when there are no findings, and a bridge finding only first |
| Evaluator.RunConsistent | network-inerface-check.go:186-231 | the whole loop keeps that invariant |
| Evaluator.RenderAllEmpty | network-inerface-check.go:199-228 | the rendered findings are empty exactly when there are none |
| Evaluator.EvaluateOutcome | network-inerface-check.go:182-235 | the exit code is 0, 1 or 2; it is 0 exactly when the summary is the bare header; a bridge finding can only come first |
| Evaluator.StepQuiet | network-inerface-check.go:187-231 | a record adds nothing to a clean verdict exactly when it is ignored; or is a bridge port whose own ports all forward; or is a full bond that is up; or is a partial bond whose slaves are all up; or is neither, with a state other than "unknown" or "down" |
| Evaluator.RunCleanIff | network-inerface-check.go:186-231 | the run stays clean exactly when every record is quiet |
| Evaluator.Unignored | network-inerface-check.go:188-190 | a record is kept exactly when its name is not ignored |
| Evaluator.UnignoredAppend | network-inerface-check.go:187-190 | filtering a concatenation filters each part in order, so kept records stay in input order |
| Evaluator.RunSkipsIgnored | network-inerface-check.go:188-190 | ignored records have no effect on the verdict |
| Evaluator.IgnoreListExact | network-inerface-check.go:185 | with a comma-joined `-ignoreif` list, a name is ignored exactly when it is one of the listed names |
| Evaluator.NoBondProblem | network-inerface-check.go:212-217 | when every bond record is up, the bond-problem finding never occurs |
| Sysfs.BridgePortsSpec | network-inerface-check.go:94-104 | the port list succeeds exactly when every port's `state` file exists, and then holds each port's trimmed name and state in directory order |
| Sysfs.BondSlavesSpec | network-inerface-check.go:120-128 | the slave list succeeds exactly when every slave's `operstate` exists, and then holds each slave's name and trimmed state in order |
| Sysfs.BridgePortsPanicStays | network-inerface-check.go:98-99 | a failed port read aborts the whole port list |
| Sysfs.BondSlavesPanicStays | network-inerface-check.go:123-124 | a failed slave read aborts the whole slave list |
| Sysfs.ReadBridgePorts | network-inerface-check.go:94-104 | the port loop returns the port list of the specification |
| Sysfs.ReadBondInfo | network-inerface-check.go:114-141 | the bond part built by the loop is that of the specification |
| Sysfs.ReadSnapshot | network-inerface-check.go:86-159 | the builder returns the specified record or the specified panic |
| Sysfs.SnapshotBridge | network-inerface-check.go:94-104 | a record is a bridge exactly when `brif/` exists, and its ports are the directory's entries with their states |
| Sysfs.SnapshotBond | network-inerface-check.go:114-141 | a record is a bond exactly when `bonding/` exists and the trimmed state is "up". Its port count is the parsed `ad_num_ports`, its slaves are those of the slaves file, and it is fully operational exactly when the slaves file is non-empty and the counts agree. A non-bond record has count 0, no slaves and `bondoperst` true |
| Sysfs.UnparsablePortCount | network-inerface-check.go:132-138 | an unparsable port count makes the bond not fully operational |
| Sysfs.SnapshotPanics | network-inerface-check.go:86-159 | the builder panics exactly when a port state is missing, or `tx_queue_len` is missing, or a bond that is up lacks `ad_num_ports` or a listed slave's `operstate`, or the path has fewer than five `/`-pieces |
| Sysfs.NameOfSysPath | network-inerface-check.go:145 | the name of `/sys/class/net/<n>` is the trimmed `n` when `n` has no slash |
| Sysfs.NameWithoutColon | network-inerface-check.go:145 | a path without a colon yields a name without a colon |
| Discovery.AppendAutoLine | network-inerface-check.go:62-70 | the word loop appends exactly the paths the line contributes |
| Discovery.GetIfs | network-inerface-check.go:53-83 | returns the candidates of the selected mode; a missing configuration file in "ubuntu" mode is a panic |
| Discovery.WordPathsMember | network-inerface-check.go:64-68 | a path comes from a line exactly when it is the sysfs path of one of its words other than "auto" |
| Discovery.LinesPathsMember | network-inerface-check.go:60-71 | a path is found exactly when some line of the file contributes it |
| Discovery.AutoPathsMember | network-inerface-check.go:58-71 | a candidate of "ubuntu" mode is exactly the sysfs path of a word, other than "auto", of an `auto ` line after `lo ` is removed |
| Discovery.DefaultPathsMember | network-inerface-check.go:73-80 | a candidate of default mode is exactly the sysfs path of a symlink entry not named `lo` |
| Discovery.DefaultSkipsLoopback | network-inerface-check.go:77 | default mode never yields the loopback interface |
| Discovery.NonAliasesMember | network-inerface-check.go:256 | a candidate is examined exactly when it contains no colon |
| Discovery.NoLoSpaceInAutoLo | network-inerface-check.go:63 | the removal leaves the line `auto lo` untouched |
| Discovery.AutoLoAtEndOfLine | network-inerface-check.go:62-68 | the configuration `auto lo` yields the loopback path |
| Discovery.AutoLoWords | network-inerface-check.go:63-64 | the words of the line `auto lo` are "auto" and "lo" |
| Discovery.AutoLoWordPaths | network-inerface-check.go:64-68 | of those words only "lo" becomes a path |
| Checker.CollectSpec | network-inerface-check.go:143-157 | collecting succeeds exactly when every path's record can be built, and then holds each path's record in order |
| Checker.CollectPanicStays | network-inerface-check.go:255-259 | a panic on one path aborts the whole collection |
| Checker.Collector.constructor | network-inerface-check.go:42 | the global record slice starts empty |
| Checker.Collector.GetIfInfo | network-inerface-check.go:86-159 | appends exactly the record of the path, or reports the panic |
| Checker.Collector.ProcessIfInfo | network-inerface-check.go:252-260 | appends the records of the candidates without a colon, in order, or reports the first panic |
| Checker.PanicAfterNonAliases | network-inerface-check.go:255-259 | a panic on a non-alias candidate is the result of the whole collection |
| Checker.CheckInterfaces | network-inerface-check.go:280-283 | discovery, collection and evaluation yield the summary and code of the whole run, or its panic |
| Checker.SysName | network-inerface-check.go:145 | a built record's name is the fifth `/`-piece of its path, trimmed |
| Checker.CollectedNamesHaveNoColon | network-inerface-check.go:145 | no collected record is named after an alias |
| Checker.CollectedBondsAreUp | network-inerface-check.go:114 | every collected bond record is up |
| Checker.CheckRunOutcome | network-inerface-check.go:182-235 | a completed run has code 0, 1 or 2, and 0 exactly when the summary is the bare header. Bridge findings come only first, and a bond-problem finding never occurs |
| Checker.CheckRunOutputLine | network-inerface-check.go:287-291 | the printed line is the all-clear message exactly when there are no findings, and otherwise the summary |
| Scenarios.HealthyInterface | network-inerface-check.go:219-228 | one healthy interface gives no findings and code 0 |
| Scenarios.DownWithoutCarrier | network-inerface-check.go:192-194 | a down interface without carrier is reported as `eth1:down_carrier:down` with code 2 |
| Scenarios.FullBondHidesDownSlave | network-inerface-check.go:204-217 | a bond with the declared number of slaves is not examined slave by slave |
| Scenarios.PartialBondReportsSlaves | network-inerface-check.go:205-211 | a bond short of slaves reports each slave not up, with code 1 |
| Scenarios.BridgePortNotReportedFromBridge | network-inerface-check.go:196-202 | a top-level bridge's blocked port is not reported |
| Scenarios.BridgePortDownHidden | network-inerface-check.go:196-202 | a down bridge port is not reported |
| Scenarios.UnknownThenDown | network-inerface-check.go:219-228 | "unknown" then "down" gives both findings and code 2 |
| Scenarios.LaterBondSlaveLowersCode | network-inerface-check.go:205-211 | a bond-slave finding after a down interface lowers the code to 1 |
| Scenarios.BridgeSilencedAfterDown | network-inerface-check.go:198 | after a down interface, a nested bridge's blocked port goes unreported |
| Scenarios.NestedBridgeReported | network-inerface-check.go:197-202 | a bridge nested in another bridge reports its blocked port with code 2 |
| Scenarios.LoopbackIgnoredByDefault | network-inerface-check.go:48 | the default ignore list silences `lo` |

## Left out

- Command-line flags: `-ubuntu` and `-ignoreif` are parameters of
  `Checker.CheckInterfaces`, and `Checker.DefaultIgnore` records the default
  of `-ignoreif`. `-debug` only enables printing.
- Printing: `showIfStatus`, the "Interface: … ignored" line of `sensuIfStatus`
  and `main`'s `fmt.Println` print without changing any state. The line
  `main` prints is modelled as `Checker.OutputLine`, and the process exit is
  the returned code.
- File-system I/O is modelled as the `Store` value.
  - A file is readable exactly when its path is in `files`.
  - A directory exists exactly when its path is in `dirs`.
  - A directory's entries come in `dirs`. `ioutil.ReadDir` sorts them by
    name, but the model leaves their order free, as it does the order of the
    `/sys/class/net/` listing. Every lemma holds for any order. The verdict
    itself does depend on order: the bridge case needs a clean code so far,
    and a bond slave finding lowers a 2 to 1.
  - The kernel's file contents are whatever the store holds.
- The listing of `/sys/class/net/` in default mode is the `entries`
  parameter, with a symlink bit per entry.
  - The `os.Lstat` failure that would abort the run is not modelled. It needs
    an entry to vanish between the listing and the `Lstat`, and a store has
    no notion of time.
  - An unreadable directory is an empty listing, as the ignored error makes it.
- Panics carry the failing path (`Faults.Fault`), not Go's error value or a
  stack trace.
- The `ifstatus = "/bonding/mii_status"` assignment is never read afterwards
  and has no counterpart. The `mtu`, `duplex`, `speed` and `txQueueLen` fields
  are recorded but never evaluated.
- Strings are sequences of Unicode characters, not UTF-8 bytes.
  `Text.TrimSpace` uses Go's Unicode white-space set. Invalid UTF-8 is not
  modelled.
- Go's `int` is taken as 64-bit. `Text.Atoi` rejects values outside that
  range, and the program then falls back to 0 as it does for any parse error.
- `Text.Atoi`: its own contract states only the range, the sign and the form
  of accepted texts. Its value is pinned down by `Text.AtoiDecimal` for decimal
  numerals.
- Paths are compared as written. No normalisation of repeated or trailing
  slashes is modelled; `Sysfs.NameOf` splits the path exactly as
  `strings.Split` would.
