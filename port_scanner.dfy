/** The port scanner: one grepable-output scan of the top ports of an address, the open ports read
    from the "Ports:" field and returned in ascending order. */
module PortScanner {
  import opened Wrappers
  import opened Errors
  import opened Subprocess
  import opened Text

  const PortsLabel := "Ports: "
  const EntrySeparator := ", "
  const OpenMarker := "/open"

  /** The number of top ports scanned when the caller names none. */
  const DefaultTopPorts := 100

  /** `nmap -T1 --top-ports <n> -oG - <ip>`. */
  function PortScanCommand(ip: string, topPorts: int): Command {
    ["nmap", "-T1", "--top-ports", IntToString(topPorts), "-oG", "-", ip]
  }

  /** nmap reads back the number of ports it was asked for: the argument after `--top-ports` is
      `str(top_ports)`, and `int()` of it is `top_ports` again. */
  lemma PortScanCommandCarriesTopPorts(ip: string, topPorts: int)
    ensures PortScanCommand(ip, topPorts)[2] == "--top-ports"
    ensures ParseInt(PortScanCommand(ip, topPorts)[3]) == Some(topPorts)
    ensures PortScanCommand(ip, topPorts)[|PortScanCommand(ip, topPorts)| - 1] == ip
  {
    var cmd := PortScanCommand(ip, topPorts);
    assert cmd[3] == IntToString(topPorts);
    ParseIntOfIntToString(topPorts);
  }

  // ---------------------------------------------------------------------------------------------
  // The "Ports:" field: re.search(r"Ports: (.*?)\t", output)
  // ---------------------------------------------------------------------------------------------

  predicate NotTabOrNewline(c: char) {
    c != '\t' && c != '\n'
  }

  /** The pattern matches at `i` with `field` as its group: "Ports: " at `i`, then `field`, which
      holds no newline (`.` does not match one) and no tab (the lazy group stops at the first),
      then a tab. */
  predicate FieldAt(s: string, i: int, field: string) {
    && StartsAt(s, i, PortsLabel)
    && StartsAt(s, i + |PortsLabel|, field)
    && (forall k | 0 <= k < |field| :: NotTabOrNewline(field[k]))
    && StartsAt(s, i + |PortsLabel| + |field|, "\t")
  }

  /** No match starts in [lo, hi). */
  ghost predicate NoFieldBetween(s: string, lo: int, hi: int) {
    forall j, f | lo <= j < hi :: !FieldAt(s, j, f)
  }

  /** No match starts at or after lo. */
  ghost predicate NoFieldFrom(s: string, lo: int) {
    forall j, f | lo <= j :: !FieldAt(s, j, f)
  }

  /** The group of the leftmost match starting at or after `from`, or None when there is none. */
  function PortsField(s: string, from: nat): (r: Option<string>)
    ensures r.Some? ==> exists i | from <= i <= |s| :: FieldAt(s, i, r.value) && NoFieldBetween(s, from, i)
    ensures r.None? ==> NoFieldFrom(s, from)
    decreases |s| - from
  {
    match IndexOf(s, PortsLabel, from)
    case None =>
      assert NoFieldFrom(s, from);
      None
    case Some(i) =>
      var a := i + |PortsLabel|;
      var q := SpanEnd(s, a, NotTabOrNewline);
      FieldAtEndsAtFirstStop(s, i, q);
      assert NoFieldBetween(s, from, i);
      if q < |s| && s[q] == '\t' then
        var field := s[a..q];
        assert FieldAt(s, i, field);
        Some(field)
      else
        var r := PortsField(s, i + 1);
        NoFieldAcross(s, from, i, r);
        r
  }

  /** The search carries on past a label occurrence `i` that is not a match. */
  lemma NoFieldAcross(s: string, from: nat, i: nat, r: Option<string>)
    requires from <= i
    requires NoFieldBetween(s, from, i)
    requires forall f :: !FieldAt(s, i, f)
    requires r.Some? ==> exists i' | i + 1 <= i' <= |s| :: FieldAt(s, i', r.value) && NoFieldBetween(s, i + 1, i')
    requires r.None? ==> NoFieldFrom(s, i + 1)
    ensures r.Some? ==> exists i' | from <= i' <= |s| :: FieldAt(s, i', r.value) && NoFieldBetween(s, from, i')
    ensures r.None? ==> NoFieldFrom(s, from)
  {
    if r.Some? {
      var i' :| i + 1 <= i' <= |s| && FieldAt(s, i', r.value) && NoFieldBetween(s, i + 1, i');
      assert NoFieldBetween(s, from, i');
    }
  }

  /** A match at `i` has as its group exactly the text up to the first tab or newline. */
  lemma FieldAtEndsAtFirstStop(s: string, i: nat, q: nat)
    requires StartsAt(s, i, PortsLabel)
    requires i + |PortsLabel| <= q <= |s|
    requires forall k :: i + |PortsLabel| <= k < q ==> NotTabOrNewline(s[k])
    requires q < |s| ==> !NotTabOrNewline(s[q])
    ensures forall f :: FieldAt(s, i, f) ==> q < |s| && f == s[i + |PortsLabel|..q] && s[q] == '\t'
  {
    var a := i + |PortsLabel|;
    forall f | FieldAt(s, i, f) ensures q < |s| && f == s[a..q] && s[q] == '\t' {
      assert s[a..a + |f|] == f;
      assert forall k | 0 <= k < |f| :: s[a + k] == f[k];
      assert s[a + |f|] == '\t';
    }
  }

  // ---------------------------------------------------------------------------------------------
  // The entries of the field
  // ---------------------------------------------------------------------------------------------

  /** `int(entry.split("/")[0])`, or None where int() raises ValueError. */
  function EntryPort(entry: string): Option<int> {
    ParseInt(Split(entry, "/")[0])
  }

  /** The entries that mention "/open", in their order. */
  function OpenEntries(entries: seq<string>): seq<string>
    decreases |entries|
  {
    if |entries| == 0 then []
    else
      var last := entries[|entries| - 1];
      OpenEntries(entries[..|entries| - 1]) + (if Contains(last, OpenMarker) then [last] else [])
  }

  /** What the loop over the entries produces: the port of every open entry, in order, or the
      ValueError of the first open entry whose port is not an integer. */
  function OpenPorts(entries: seq<string>): Result<seq<int>, Error>
    decreases |entries|
  {
    if |entries| == 0 then Ok([])
    else match OpenPorts(entries[..|entries| - 1])
      case Err(e) => Err(e)
      case Ok(ports) =>
        var last := entries[|entries| - 1];
        if !Contains(last, OpenMarker) then Ok(ports)
        else match EntryPort(last)
          case None => Err(InvalidLiteral(Split(last, "/")[0]))
          case Some(p) => Ok(ports + [p])
  }

  /** On success every open entry yields exactly one port, in order: nothing is dropped, nothing
      is merged, so duplicate ports are kept. */
  lemma {:induction false} OpenPortsAreEntryPorts(entries: seq<string>)
    requires OpenPorts(entries).Ok?
    ensures |OpenPorts(entries).value| == |OpenEntries(entries)|
    ensures forall k | 0 <= k < |OpenEntries(entries)| ::
              EntryPort(OpenEntries(entries)[k]) == Some(OpenPorts(entries).value[k])
    decreases |entries|
  {
    if |entries| > 0 {
      OpenPortsAreEntryPorts(entries[..|entries| - 1]);
    }
  }

  /** Every open entry is kept by OpenEntries and everything it keeps is an open entry. */
  lemma {:induction false} OpenEntriesAreTheOpenOnes(entries: seq<string>)
    ensures forall e :: e in OpenEntries(entries) <==> e in entries && Contains(e, OpenMarker)
    decreases |entries|
  {
    if |entries| > 0 {
      var init := entries[..|entries| - 1];
      OpenEntriesAreTheOpenOnes(init);
      assert entries == init + [entries[|entries| - 1]];
    }
  }

  /** The loop raises exactly when some open entry's port is not an integer. */
  lemma {:induction false} OpenPortsFailsIffBadEntry(entries: seq<string>)
    ensures OpenPorts(entries).Err? <==>
            exists k | 0 <= k < |entries| :: Contains(entries[k], OpenMarker) && EntryPort(entries[k]).None?
    decreases |entries|
  {
    if |entries| > 0 {
      var n := |entries| - 1;
      var init := entries[..n];
      OpenPortsFailsIffBadEntry(init);
      if OpenPorts(init).Err? {
        var k :| 0 <= k < |init| && Contains(init[k], OpenMarker) && EntryPort(init[k]).None?;
        assert entries[k] == init[k];
      } else {
        forall k | 0 <= k < n ensures !(Contains(entries[k], OpenMarker) && EntryPort(entries[k]).None?) {
          assert entries[k] == init[k];
        }
      }
    }
  }

  /** Once the loop has raised on a prefix, it raises the same way on every longer prefix. */
  lemma {:induction false} OpenPortsErrorPersists(entries: seq<string>, k: nat)
    requires k <= |entries|
    requires OpenPorts(entries[..k]).Err?
    ensures OpenPorts(entries) == OpenPorts(entries[..k])
    decreases |entries| - k
  {
    if k < |entries| {
      assert entries[..k + 1][..k] == entries[..k];
      OpenPortsErrorPersists(entries, k + 1);
    } else {
      assert entries[..k] == entries;
    }
  }

  /** What `_parse_nmap_output` returns: no field means no ports. */
  function ParsePorts(output: string): Result<seq<int>, Error> {
    match PortsField(output, 0)
    case None => Ok([])
    case Some(field) => OpenPorts(Split(field, EntrySeparator))
  }

  /** `_parse_nmap_output`: the field is split at ", " and each entry holding "/open" appends the
      integer before its first "/". */
  method ParseNmapOutput(output: string) returns (r: Result<seq<int>, Error>)
    ensures r == ParsePorts(output)
  {
    var field := PortsField(output, 0);
    if field.None? {
      return Ok([]);
    }
    var entries := Split(field.value, EntrySeparator);
    var ports: seq<int> := [];
    for k := 0 to |entries|
      invariant OpenPorts(entries[..k]) == Ok(ports)
    {
      assert entries[..k + 1][..k] == entries[..k];
      var entry := entries[k];
      if Contains(entry, OpenMarker) {
        var port := EntryPort(entry);
        if port.None? {
          OpenPortsErrorPersists(entries, k + 1);
          return Err(InvalidLiteral(Split(entry, "/")[0]));
        }
        ports := ports + [port.value];
      }
    }
    assert entries[..|entries|] == entries;
    return Ok(ports);
  }

  /** Without a "Ports: ...<tab>" match there are no ports. */
  lemma NoFieldNoPorts(output: string)
    requires NoFieldFrom(output, 0)
    ensures ParsePorts(output) == Ok([])
  {
  }

  // ---------------------------------------------------------------------------------------------
  // sorted(open_ports)
  // ---------------------------------------------------------------------------------------------

  predicate Ascending(xs: seq<int>) {
    forall i, j | 0 <= i < j < |xs| :: xs[i] <= xs[j]
  }

  /** `x` put into its place in the ascending `xs`. */
  function Insert(x: int, xs: seq<int>): (r: seq<int>)
    requires Ascending(xs)
    ensures |r| == |xs| + 1
    ensures r[0] == (if |xs| == 0 || x <= xs[0] then x else xs[0])
    ensures Ascending(r)
    ensures multiset(r) == multiset(xs) + multiset{x}
    decreases |xs|
  {
    if |xs| == 0 then [x]
    else if x <= xs[0] then [x] + xs
    else
      var tail := Insert(x, xs[1..]);
      assert xs == [xs[0]] + xs[1..];
      assert xs[0] <= tail[0];
      assert forall k | 0 <= k < |tail| :: tail[0] <= tail[k];
      var r := [xs[0]] + tail;
      assert forall k | 1 <= k < |r| :: r[k] == tail[k - 1];
      r
  }

  /** `sorted(xs)`: ascending, and a rearrangement of `xs` that keeps every duplicate. */
  function Sort(xs: seq<int>): (r: seq<int>)
    ensures Ascending(r)
    ensures multiset(r) == multiset(xs)
    decreases |xs|
  {
    if |xs| == 0 then []
    else
      assert xs == [xs[0]] + xs[1..];
      Insert(xs[0], Sort(xs[1..]))
  }

  // ---------------------------------------------------------------------------------------------
  // PortScanner.scan
  // ---------------------------------------------------------------------------------------------

  /** `PortScanner.scan(ip, top_ports=100)`. An invalid address raises before anything runs; a
      timeout raises ScanTimeout; a non-zero exit means no open ports; otherwise the parsed ports,
      sorted. */
  function Scan(ip: string, isAddress: string -> bool, run: Runner, topPorts: int := DefaultTopPorts)
    : (r: Invoked<seq<int>>)
    ensures !isAddress(ip) ==> r == Invoked(Err(InvalidAddress(ip)), [])
    ensures isAddress(ip) ==> r.commands == [PortScanCommand(ip, topPorts)]
    ensures isAddress(ip) && run(PortScanCommand(ip, topPorts)).Timeout? ==>
              r.result == Err(ScanTimeout(ip))
    ensures isAddress(ip) ==> var o := run(PortScanCommand(ip, topPorts));
              o.Exit? && o.code != 0 ==> r.result == Ok([])
    ensures isAddress(ip) ==> var o := run(PortScanCommand(ip, topPorts));
              o.Exit? && o.code == 0 ==>
                var parsed := ParsePorts(o.stdout);
                && (parsed.Err? ==> r.result == parsed)
                && (parsed.Ok? ==> r.result.Ok? && Ascending(r.result.value) &&
                                   multiset(r.result.value) == multiset(parsed.value))
  {
    if !isAddress(ip) then Invoked(Err(InvalidAddress(ip)), [])
    else
      var cmd := PortScanCommand(ip, topPorts);
      match run(cmd)
      case Timeout => Invoked(Err(ScanTimeout(ip)), [cmd])
      case Exit(code, stdout) =>
        if code != 0 then Invoked(Ok([]), [cmd])
        else match ParsePorts(stdout)
          case Err(e) => Invoked(Err(e), [cmd])
          case Ok(ports) => Invoked(Ok(Sort(ports)), [cmd])
  }

  /** Without a count, the scan asks nmap for its top 100 ports. */
  lemma DefaultScanCommand(ip: string, isAddress: string -> bool, run: Runner)
    ensures isAddress(ip) ==>
              Scan(ip, isAddress, run).commands == [["nmap", "-T1", "--top-ports", "100", "-oG", "-", ip]]
  {
    assert IntToString(100) == "100";
  }
}
