# oa-scanner core, modelled in Dafny

oa-scanner is a network scanner driven by nmap. Its workflow picks the targets, then scans them
one by one:

- The targets are either the `pending_ips` of an interrupted scan kept in the state file, or the
  hosts that a discovery sweep of the network finds.
- For each target it runs a port scan. If the scan finds open ports, it then runs service
  detection, OS fingerprinting and three detailed script checks, and records one host entry.
- At the end it writes a cleared checkpoint and hands a non-empty result to the report writer.

This project models that core:

- the five stage executors with their nmap output parsers;
- the workflow loop;
- the JSON state store with its atomic save;
- the resume decision;
- the licence-key validator.

The model states and proves what each of these promises.

nmap and the file system are not part of the model. They become values:

- A `Runner` maps a command, an argument vector, to its `Outcome`. The outcome is either an exit
  code with the captured standard output, or `Timeout` (subprocess's 300-second limit).
- The file system is a map from path to contents, together with the set of paths where opening
  or replacing raises OSError.
- The JSON encoder/decoder is a `Codec` pair of functions, with a round-trip predicate.

Python exceptions are the constructors of `Errors.Error`. A function that may raise returns a
`Result`.

The modules follow the source files:

| module | file |
|---|---|
| `PortScanner` | port_scanner.py |
| `ServiceDetector` | service_detector.py |
| `OsFingerprint` | os_fingerprint.py |
| `DetailedChecks` | detailed_checks.py |
| `NmapRunner` | nmap_runner.py |
| `ScanWorkflow` | scan_workflow.py |
| `State` | state.py |
| `Resume` | resume.py |
| `License` | license.py |

The supporting modules are:

- `Text`: the Python string built-ins the parsers rely on (`in`, `find`, `split`, `strip`,
  `int()`, `str()`, string order).
- `Json`, `Subprocess`, `Errors` and `Wrappers`.

The regular expressions are modelled for their one pattern each, with the backtracking worked out
by hand:

- A greedy run such as `\d+` or `\s+` can only succeed with its longest run.
- The lazy `(.*?)(?:\n|$)` takes the rest of the line.
- `$` in `re.match(r"^…$")` also matches before a final newline.

Two places keep the source's behaviour even though it may be unintended:

- The `\s+` that follows the service name can swallow a newline (see
  `ServiceDetector.NameAtLineEndTakesNextLine`).
- The shipped hash list cannot match any SHA-256 digest (see
  `License.NoKeyValidatesWithShippedHashes`).

Both are stated as lemmas about the code as written.

## Model

| member | source | states |
|---|---|---|
| PortScanner.PortScanCommandCarriesTopPorts | src/scanner/port_scanner.py:41 | the command carries `--top-ports` followed by `str(top_ports)`, which `int()` reads back as `top_ports`, and ends with the address |
| PortScanner.PortsField | src/scanner/port_scanner.py:66-69 | `re.search(r"Ports: (.*?)\t")`: a result is the group of a match with no match before it; no result means no match anywhere |
| PortScanner.FieldAtEndsAtFirstStop | src/scanner/port_scanner.py:66 | a match at a position has as its group exactly the text up to the first tab or newline, and that stop is a tab |
| PortScanner.OpenEntriesAreTheOpenOnes | src/scanner/port_scanner.py:74-75 | the entries kept are exactly those, among the `", "`-split entries, that contain "/open" |
| PortScanner.OpenPortsAreEntryPorts | src/scanner/port_scanner.py:74-77 | on success, one port per open entry, in order: the `int()` of the text before its first "/"; duplicates are kept |
| PortScanner.OpenPortsFailsIffBadEntry | src/scanner/port_scanner.py:76 | the loop raises ValueError exactly when some open entry's port text is not an integer |
| PortScanner.OpenPortsErrorPersists | src/scanner/port_scanner.py:74-77 | once the loop has raised on a prefix of the entries, the whole loop raises the same error |
| PortScanner.ParseNmapOutput | src/scanner/port_scanner.py:64-79 | the loop over the split entries computes `ParsePorts`: no field gives [], otherwise the open entries' ports or the first ValueError |
| PortScanner.NoFieldNoPorts | src/scanner/port_scanner.py:68-69 | output without a "Ports: …<tab>" match gives no ports |
| PortScanner.Insert | src/scanner/port_scanner.py:62 | inserting into an ascending list keeps it ascending and adds exactly that element to its multiset |
| PortScanner.Sort | src/scanner/port_scanner.py:62 | `sorted`: ascending, and a permutation of the input that keeps duplicates |
| PortScanner.Scan | src/scanner/port_scanner.py:21-62 | with `top_ports` 100 when none is given: invalid address: ValueError, no command; otherwise exactly one command; timeout: ScanTimeout; non-zero exit: []; a parse error escapes; success: the parsed ports sorted, as a permutation |
| PortScanner.DefaultScanCommand | src/scanner/port_scanner.py:21-41 | a scan without a count runs `nmap -T1 --top-ports 100 -oG - <ip>` |
| ServiceDetector.HeadAtIsPattern | src/scanner/service_detector.py:66 | `(\d+)/tcp\s+open` at a position: the head matches with cut points d and e exactly when digits run up to d, "/tcp" follows, spaces up to e-4 and "open" ends at e, with the longest runs |
| ServiceDetector.GapAtIsPattern | src/scanner/service_detector.py:66 | `\s+\S+\s+` after "open": the gap matches with cuts w2, t, w3 exactly when spaces, a non-space name and spaces fill them, each run the longest |
| ServiceDetector.MatchAt | src/scanner/service_detector.py:66-71 | a match at a position ends after that position and within the output |
| ServiceDetector.MatchAtIsPattern | src/scanner/service_detector.py:66-71 | a match at a position is exactly a head, a gap and the rest of the line after them, as the pattern's pieces state |
| ServiceDetector.MatchEndsLine | src/scanner/service_detector.py:66 | `(.*)` stops at a newline: a match ends at the end of the output or just after a newline |
| ServiceDetector.FindServicesAreMatches | src/scanner/service_detector.py:69-71 | every match finditer yields is the match at some position at or after the search start |
| ServiceDetector.FindServicesAfterLine | src/scanner/service_detector.py:66-71 | a well-formed service line followed by any text yields its own match and then the matches searched from the end of its line |
| ServiceDetector.ServiceMapKeys | src/scanner/service_detector.py:69-72 | the dictionary's keys are exactly the ports that some match reported |
| ServiceDetector.ServiceMapLastWins | src/scanner/service_detector.py:72 | a port reported several times keeps the description of its last match |
| ServiceDetector.ParseNmapOutput | src/scanner/service_detector.py:64-74 | the finditer loop builds the dictionary `ServiceMap` of the matches, in order |
| ServiceDetector.MatchOfLine | src/scanner/service_detector.py:66-71 | once head and gap are found, the match at the start takes the rest of the line: port = value of the digits, service = stripped rest, end just after the newline |
| ServiceDetector.HeadOfLine | src/scanner/service_detector.py:66 | `<digits>/tcp<spaces>open` at the start of the output is matched with the longest runs |
| ServiceDetector.GapOfLine | src/scanner/service_detector.py:66 | `<spaces><name><spaces>` followed by a non-space is matched as the gap `\s+\S+\s+` |
| ServiceDetector.LineMatch | src/scanner/service_detector.py:66-71 | a well-formed service line is one match, whatever follows it: its port, its stripped description, and its end after the newline |
| ServiceDetector.SingleLineServices | src/scanner/service_detector.py:64-74 | an output that is one service line gives exactly one entry, mapping its port to its stripped description |
| ServiceDetector.SshLineParses | src/scanner/service_detector.py:64-74 | "22/tcp open  ssh  OpenSSH 8.2\n" parses to {22: "OpenSSH 8.2"} |
| ServiceDetector.NameAtLineEndTakesNextLine | src/scanner/service_detector.py:66 | a service name at the end of its line takes the whole next line as its description, so the next line's port is lost |
| ServiceDetector.ServiceCommandNamesEachPort | src/scanner/service_detector.py:40-41 | the command is `nmap -sV --version-intensity 2` followed by one `<ip>:<port>` per port, in order, each port readable back |
| ServiceDetector.Detect | src/scanner/service_detector.py:17-62 | invalid address: ValueError, even with no ports; no ports: {} and no command; otherwise one command; timeout or non-zero exit: {}; success: the parsed map; nothing else raises |
| OsFingerprint.SearchLabelled | src/scanner/os_fingerprint.py:64-73 | `re.search(tag + r"(.*?)(?:\n\|$)")`: None exactly when the tag does not occur; otherwise the stripped rest of the line after its first occurrence |
| OsFingerprint.FoundIsFirst | src/scanner/os_fingerprint.py:65 | the leftmost occurrence found is the first one, and what follows it is captured |
| OsFingerprint.ParseOs | src/scanner/os_fingerprint.py:61-75 | an OS details line wins wherever it is; Running is used only without one; None exactly when neither label occurs |
| OsFingerprint.RestOfLineIsOneLine | src/scanner/os_fingerprint.py:64 | the captured rest of a line holds no newline and has no surrounding whitespace |
| OsFingerprint.ParseOsIsOneLine | src/scanner/os_fingerprint.py:61-75 | any result of the parser is a single line without surrounding whitespace |
| OsFingerprint.RestOfLabelledLine | src/scanner/os_fingerprint.py:64-67 | the capture after a tag is its line up to the newline, stripped |
| OsFingerprint.DetailsLine | src/scanner/os_fingerprint.py:64-67 | an output `…OS details: <text>\n…` gives the stripped text, whatever follows |
| OsFingerprint.RunningLine | src/scanner/os_fingerprint.py:70-73 | without an OS details line, `…Running: <text>\n…` gives the stripped text |
| OsFingerprint.FirstAtUnique | src/scanner/os_fingerprint.py:65 | there is exactly one first occurrence of a tag |
| OsFingerprint.Fingerprint | src/scanner/os_fingerprint.py:17-59 | invalid address: ValueError, no command; otherwise one command; timeout or non-zero exit: None; success: the parsed OS; nothing else raises |
| DetailedChecks.ScriptOutput | src/scanner/detailed_checks.py:64-80 | the output of a zero exit, and "" for a non-zero exit or a timeout; non-empty output only comes from a zero exit |
| DetailedChecks.MentionsIsContains | src/scanner/detailed_checks.py:44 | `result and marker in result` is `marker in result` for a non-empty marker |
| DetailedChecks.Flags | src/scanner/detailed_checks.py:34-59 | exactly the keys smbv1, anonymous_share and weak_tls; each true exactly when its own output contains its marker, weak_tls for either TLS marker |
| DetailedChecks.QuietProbesFindNothing | src/scanner/detailed_checks.py:34-80 | probes that all succeed with empty output give every flag false |
| DetailedChecks.FailedProbesFindNothing | src/scanner/detailed_checks.py:64-80 | probes that all fail or time out give every flag false, whatever they printed |
| DetailedChecks.SmbOnlyIsFound | src/scanner/detailed_checks.py:40-59 | an example: an SMB probe printing "SMBv1 enabled" and silent other probes give smbv1 true and the other two false |
| DetailedChecks.AllAreFound | src/scanner/detailed_checks.py:40-59 | an example: probes printing their markers set all three flags |
| DetailedChecks.RunChecks | src/scanner/detailed_checks.py:16-62 | invalid address: ValueError, no probe; otherwise the three probes in order and the result `Findings`: the map `Flags` of the three probes' script outputs |
| NmapRunner.OctetDotAtFinds | src/scanner/nmap_runner.py:86 | `\d{1,3}\.` at a position: one to three digits, then the dot |
| NmapRunner.OctetEndFinds | src/scanner/nmap_runner.py:86 | the last `\d{1,3}` takes one to three digits |
| NmapRunner.QuadEndsPieces | src/scanner/nmap_runner.py:86 | a match of the dotted-quad group has a dot at each of its three cuts and one to three digits in each piece |
| NmapRunner.QuadAtIsDottedQuad | src/scanner/nmap_runner.py:86 | every capture of the group is four one-to-three-digit pieces joined by dots |
| NmapRunner.DotJoined | src/scanner/nmap_runner.py:86 | a slice cut at three dots is its four pieces joined by dots |
| NmapRunner.FindAddressesAreCaptures | src/scanner/nmap_runner.py:86-87 | every address findall returns is the capture of a match at some position of the output |
| NmapRunner.DiscoveredAreReported | src/scanner/nmap_runner.py:84-87 | soundness: every discovered address is a dotted quad that directly follows "Nmap scan report for " in the output |
| NmapRunner.AddressNeedsReport | src/scanner/nmap_runner.py:84-87 | output without "Nmap scan report for " reports no address |
| NmapRunner.QuadAtChars | src/scanner/nmap_runner.py:86 | a capture of the dotted-quad group consists of digits and dots only |
| NmapRunner.ReportLabelIsSelfSeparating | src/scanner/nmap_runner.py:86 | the label "Nmap scan report for " starts with neither a digit nor a dot and its first letter does not reappear in it, so a match cannot overlap the next label |
| NmapRunner.MatchEndsBeforeLead | src/scanner/nmap_runner.py:86 | a match does not run over a later occurrence of the label |
| NmapRunner.CaptureIsFound | src/scanner/nmap_runner.py:86-87 | completeness of findall: the capture of a match at any position from the search start is among the addresses found |
| NmapRunner.ReportedAreDiscovered | src/scanner/nmap_runner.py:84-87 | completeness: a dotted quad directly after "Nmap scan report for " anywhere in the output is discovered |
| NmapRunner.DiscoveredIffReported | src/scanner/nmap_runner.py:84-87 | an address is discovered exactly when the output reports it after "Nmap scan report for " |
| NmapRunner.LeastExists | src/scanner/nmap_runner.py:82 | a non-empty set of strings has a least element in string order |
| NmapRunner.SortStep | src/scanner/nmap_runner.py:82 | moving the least remaining element to the end keeps a partial sort |
| NmapRunner.SortedStrings | src/scanner/nmap_runner.py:82 | `sorted(list(ips))`: strictly increasing, each element of the set exactly once, nothing else |
| NmapRunner.SweepsArePrefix | src/scanner/nmap_runner.py:41-80 | the sweeps run are the first ones of the list, and at least one runs |
| NmapRunner.EarlierSweepsFoundNothing | src/scanner/nmap_runner.py:54-69 | every sweep before the last one run exited and found nothing |
| NmapRunner.LastSweepDecides | src/scanner/nmap_runner.py:41-82 | the last sweep run decides: a timeout is the exception; else the addresses are what it found, and it found some unless it was the last in the list |
| NmapRunner.NothingFoundGoesOn | src/scanner/nmap_runner.py:54-69 | a sweep that completes without a find hands over to the next one |
| NmapRunner.FirstFindIsFinal | src/scanner/nmap_runner.py:51-55 | a first sweep that finds addresses is the only sweep run |
| NmapRunner.RunSweeps | src/scanner/nmap_runner.py:39-80 | the three guarded sweeps over the set `ips` compute `Sweeps`: the set or the TimeoutExpired, and the commands run |
| NmapRunner.HostDiscovery | src/scanner/nmap_runner.py:21-82 | invalid network: ValueError, no sweep; otherwise the commands of the sweeps, their exception, or their addresses sorted, each once |
| ScanWorkflow.Targets | src/scanner/scan_workflow.py:52 | `for ip in pending`: a list of strings is walked as it is, a string letter by letter; a number, boolean or null is not iterable |
| ScanWorkflow.Plan | src/scanner/scan_workflow.py:44-49 | a resume decision error escapes; resuming uses the pending list; otherwise discovery of the network |
| ScanWorkflow.ResumedListIsScanned | src/scanner/scan_workflow.py:44-46 | a stored non-empty list of addresses is exactly the target list, in order |
| ScanWorkflow.FreshScanDiscovers | src/scanner/scan_workflow.py:47-49 | without a state file the network is discovered |
| ScanWorkflow.ScanHostGuarded | src/scanner/scan_workflow.py:55-72 | a pass starts with the port scan at the workflow's count; it skips exactly when no port is open; the other stages run only after open ports; a record holds the stages' results |
| ScanWorkflow.Kept | src/scanner/scan_workflow.py:56-58 | the targets kept are exactly those whose port scan finds open ports |
| ScanWorkflow.ScanAllRecordsKeptTargets | src/scanner/scan_workflow.py:52-72 | a completed loop holds one record per target with open ports, in order, each made of that target's stage results; every call is guarded |
| ScanWorkflow.ScanAllFailsAtFirstError | src/scanner/scan_workflow.py:52-62 | the loop raises exactly when some target's stages raise, and then it raises the first such target's exception |
| ScanWorkflow.ScanAllStopsAtError | src/scanner/scan_workflow.py:52-62 | after an exception nothing more runs: the whole loop equals the loop up to the failing target |
| ScanWorkflow.ResultsAtMostTargets | src/scanner/scan_workflow.py:52-72 | there are never more results than targets |
| ScanWorkflow.ScanOne | src/scanner/scan_workflow.py:55-72 | one pass of the loop body computes `ScanHost`: its record or exception, and its calls |
| ScanWorkflow.ScanTargets | src/scanner/scan_workflow.py:52-73 | the loop computes `ScanAll`: the records or the first exception, and the calls made |
| ScanWorkflow.ScanWorkflow.constructor | src/scanner/scan_workflow.py:22-30 | the workflow keeps its network and its top-ports count, which is 100 when none is given |
| ScanWorkflow.ScanWorkflow.Run | src/scanner/scan_workflow.py:35-85 | an exception from the targets' choice or from a stage leaves no checkpoint and no report; a completed loop saves `{"pending_ips": []}` once to the default path; the results are reported only when non-empty, and returned |
| ScanWorkflow.ClearingFailsOnlyWithStateError | src/scanner/scan_workflow.py:76 | the final checkpoint save can only fail with StateError, and fails exactly when "scan_state.tmp" or "scan_state.json" cannot be written |
| State.LastIndexOf | src/core/state.py:27 | the last position of a character, or -1, with no later occurrence |
| State.SuffixStart | src/core/state.py:27 | pathlib's suffix starts at the last dot within the name that is neither its first nor last character, or there is none |
| State.WithSuffix | src/core/state.py:27 | `with_suffix`: ValueError exactly for an empty name; otherwise the path up to the old suffix kept unchanged and the new suffix at the end |
| State.DefaultTempPath | src/core/state.py:12-27 | the temporary file of "scan_state.json" is "scan_state.tmp" |
| State.SaveTo | src/core/state.py:20-36 | the temp file is written first; a write failure changes no file; a replace failure leaves the new temp file and the old target; success leaves the content at the target and no temp file; an empty file name: the ValueError of `with_suffix` and no file changed; every other failure is a StateError |
| State.LoadFrom | src/core/state.py:38-57 | None exactly when the file is missing; an existing file that cannot be read: StateError; undecodable: StateCorruptedError; otherwise the decoded document |
| State.SaveThenLoad | src/core/state.py:20-57 | a successful save followed by a load of the same path gives back the saved document |
| State.FailedSaveKeepsLoad | src/core/state.py:29-36 | a failed save leaves what a load of the target returns unchanged |
| State.StateManager.SaveState | src/core/state.py:20-36 | the file map after the call and the result are those of `SaveTo` with the default path when none is given |
| State.StateManager.LoadState | src/core/state.py:38-57 | with the default path when none is given: None exactly when that file is missing; a document only when the file exists and decodes to it; every error is a state error |
| Resume.Get | src/core/resume.py:17-23 | `state.get`: the stored value or the default for an object; AttributeError for a loaded value that is not an object |
| Resume.ShouldResume | src/core/resume.py:14-17 | load errors escape; no or falsy state: false; a truthy non-object raises AttributeError; true exactly when the object's pending value is truthy |
| Resume.GetPendingIps | src/core/resume.py:20-23 | load errors escape; no or falsy state: []; the stored value verbatim when present, [] when the key is missing |
| Resume.ResumeMeansPending | src/core/resume.py:14-23 | a resume decision means the pending value is the stored one and truthy |
| Resume.StoredListResumes | src/core/resume.py:14-23 | a stored list resumes exactly when it is non-empty, and is then the pending list |
| Resume.ClearedStateDoesNotResume | src/core/resume.py:14-23 | the cleared checkpoint `{"pending_ips": []}` is no reason to resume |
| License.WellFormedKeyIff | src/core/license.py:34 | the format check accepts exactly a non-empty prefix of capitals and digits, a dash and eight digits, optionally followed by one newline |
| License.DatePart | src/core/license.py:40 | `key.split('-')[1]` of a well-formed key is everything after its dash |
| License.SplitAtOnlyDash | src/core/license.py:40 | a string with one dash splits into the text before and after it |
| License.ValidateKey | src/core/license.py:24-54 | true exactly when the format matches, the date parses, it is not before today, and the salted digest is a known hash |
| License.ChecksShortCircuit | src/core/license.py:33-52 | the date parser matters only for a well-formed key, and the digest only for a key whose date parsed and has not passed |
| License.ExpiryDayIsValid | src/core/license.py:41 | a key expiring today is still valid |
| License.KeyWithoutDashIsRefused | src/core/license.py:34-36 | a key without a dash is refused |
| License.SampleKeyIsWellFormed | src/core/license.py:34-40 | "COMPANY-20991231" passes the format check and hands "20991231" to the date parser |
| License.NoKeyValidatesWithShippedHashes | src/core/license.py:12-52 | with 64-character SHA-256 digests, the shipped 32-character hash list validates no key |
| Text.IndexOfFindsContained | src/scanner/os_fingerprint.py:65 | a search from the start finds something exactly when the text occurs |
| Text.SpanEndIs | src/scanner/service_detector.py:66 | a run ends at the first position that fails its character test |
| Text.IndexOf | src/scanner/port_scanner.py:67 | `find`: a result is an occurrence with none between the start and it; no result means no occurrence |
| Text.Split | src/scanner/port_scanner.py:74 | `str.split(sep)`: at least one piece, no piece contains the separator, and joining the pieces with it gives back the string |
| Text.SplitWithoutSeparator | src/core/license.py:40 | without an occurrence of the separator, split gives the whole string |
| Text.Strip | src/scanner/service_detector.py:71 | `str.strip()`: the result neither starts nor ends with whitespace |
| Text.StripRemovesOnlySpace | src/scanner/service_detector.py:71 | strip removes only whitespace, at both ends |
| Text.StripKeepsAbsent | src/scanner/os_fingerprint.py:67 | a character not in the string is not in its strip |
| Text.ParseIntOfIntToString | src/scanner/port_scanner.py:41 | `int(str(n)) == n` |
| Text.ParseIntOfDigits | src/scanner/port_scanner.py:76 | `int()` accepts a plain run of ASCII digits, with their decimal value |
| Text.LexLessTransitive | src/scanner/nmap_runner.py:82 | string order is transitive |
| Text.LexLessTotal | src/scanner/nmap_runner.py:82 | of two different strings one is below the other |
| Text.LexLessIrreflexive | src/scanner/nmap_runner.py:82 | no string is below itself |

## Left out

- I/O: nmap runs, files and the report writer are not performed. nmap is the `Runner` parameter, and the state files are the map in `State.StateManager`. The report is a ghost log of (path, results) in `ScanWorkflow.ScanWorkflow`; the Excel writer and its exceptions are not modelled.
- Logging and stderr: the logger calls and the stderr text nmap prints are not modelled.
- The 300-second timeout becomes the `Timeout` outcome of a command. Elapsed time is not modelled.
- Address and network checks: `ipaddress.ip_address` and `ipaddress.ip_network` are predicate parameters (`isAddress`, `isNetwork`), not a parser of addresses.
- Licence inputs: `datetime.strptime`, `datetime.utcnow().date()` and `hashlib.sha256` are parameters of `License.ValidateKey`.
- `LicenseManager.get_license_info` and `activate_license` are stubs whose body is `pass`, so they are not modelled.
- The `port_scan`, `service_scan`, `os_fingerprint` and `detailed_checks` stubs of nmap_runner.py (lines 89-103) are likewise not modelled.
- host_discovery.py is not part of this model. The workflow's discovery stage is the injected `discover` function.
- Unbound calls: the workflow calls the stage executors on their classes rather than on instances. The model treats each call as the stage executor injected through `ScanWorkflow.Stages`, and does not link those stages to the stage models of the other modules.
- `ScanWorkflow.Targets`: a `pending_ips` value that is a JSON object, or a list with an element that is not a string, gives the model error `UnsupportedTargets` rather than Python's iteration over it.
- `Text.IsDigit`: only ASCII digits are digits. Python's `\d` and `int()` also accept other Unicode decimal digits.
- Paths: pathlib's normalisation (repeated or trailing slashes, ".." and "." components) is not modelled. `State.WithSuffix` works on the path text as given.
- `State.StateManager.SaveState`: a failed write leaves nothing on disk in the model. A partial temporary file left by an interrupted `json.dump` is not modelled.
- JSON: the text format is inside the opaque `Codec`. JSON numbers are integers only; floats are not modelled.
- Process exit status: a process is assumed to end with an exit code or a timeout. Signals and a missing nmap binary (FileNotFoundError) are not modelled.
- scanner_cli.py and the user interface are not part of this model.
- Text encoding: the file map holds decoded text. A state file whose bytes are not valid UTF-8 makes `json.load` raise UnicodeDecodeError, which neither handler of `load_state` catches (src/core/state.py:48-49); that case is not modelled.
- ServiceDetector.HeadAt: its own contract states the bounds and the digit run only; the pieces of `(\d+)/tcp\s+open` are stated, in both directions, by `HeadAtIsPattern`. `GapAt` and `GapAtIsPattern` are split the same way.
- ServiceDetector.FindServices, NmapRunner.FindAddresses, NmapRunner.Discovered: these functions carry no contract of their own; what they return is stated by `FindServicesAreMatches`, `FindServicesAfterLine`, `FindAddressesAreCaptures`, `CaptureIsFound` and `DiscoveredIffReported`.
- Text.ParseInt: CPython's limit on integer string conversion (4300 digits by default) is not modelled. `int()` of a longer digit run raises ValueError in Python; the model reads its value.
- Text.IntToString: the same limit is not modelled. `str()` of an integer of more than 4300 digits raises ValueError in Python; the model writes its digits.
- Text.ParseIntOfDigits: holds in the model for digit runs of any length. Python refuses runs of more than 4300 digits.
- Text.ParseIntOfIntToString: holds in the model for every integer. Python raises for integers of more than 4300 digits.
- PortScanner.PortScanCommandCarriesTopPorts: a `top_ports` of more than 4300 digits makes `str(top_ports)` raise ValueError (src/scanner/port_scanner.py:41); the model builds the command.
- PortScanner.OpenPorts: an open entry whose port has more than 4300 digits makes `int()` raise ValueError (src/scanner/port_scanner.py:76); the model reads the port.
- ServiceDetector.MatchFrom: a port run of more than 4300 digits makes `int(match.group(1))` raise ValueError (src/scanner/service_detector.py:70); the model takes its value.
- ServiceDetector.Detect: so "nothing else raises" leaves out that ValueError of a port run of more than 4300 digits.
- State.LoadFrom: `json.load` can also raise a plain ValueError, for an integer of more than 4300 digits, or RecursionError, for deep nesting. Neither is a JSONDecodeError or an IOError, so both escape `load_state` (src/core/state.py:49-57). The model's decoder has no such third outcome.
- State.StateManager.LoadState: inherits that gap. "Every error is a state error" does not cover those escaping ValueError and RecursionError.
- State.SaveTo: `json.dump` of such a document raises ValueError or RecursionError, which the OSError handler does not catch (src/core/state.py:30-36). The model's encoder always succeeds.
