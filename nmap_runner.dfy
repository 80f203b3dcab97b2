/** Host discovery: up to three ping sweeps of a network (ARP, then ICMP echo, then no ping), each
    tried only while no host has been found, and the addresses found returned in sorted order. */
module NmapRunner {
  import opened Wrappers
  import opened Errors
  import opened Subprocess
  import opened Text

  const ReportLabel := "Nmap scan report for "

  // ---------------------------------------------------------------------------------------------
  // re.findall(r"Nmap scan report for (\d{1,3}\.\d{1,3}\.\d{1,3}\.\d{1,3})", output)
  // ---------------------------------------------------------------------------------------------

  /** One to three digits. */
  predicate IsOctetText(p: string) {
    1 <= |p| <= 3 && AllDigits(p)
  }

  /** Four groups of one to three digits joined by dots: the text the group captures. */
  ghost predicate IsDottedQuad(a: string) {
    exists p1, p2, p3, p4 | IsOctetText(p1) && IsOctetText(p2) && IsOctetText(p3) && IsOctetText(p4) ::
      a == p1 + "." + p2 + "." + p3 + "." + p4
  }

  /** The end of the run of digits that starts at `j`. */
  function DigitsEnd(s: string, j: nat): (d: nat)
    requires j <= |s|
    ensures j <= d <= |s|
    decreases |s| - j
  {
    if j < |s| && IsDigit(s[j]) then DigitsEnd(s, j + 1) else j
  }

  /** The run holds only digits and stops at a character that is not one. */
  lemma {:induction false} DigitsEndIsRun(s: string, j: nat)
    requires j <= |s|
    ensures forall k | j <= k < DigitsEnd(s, j) :: IsDigit(s[k])
    ensures DigitsEnd(s, j) < |s| ==> !IsDigit(s[DigitsEnd(s, j)])
    decreases |s| - j
  {
    if j < |s| && IsDigit(s[j]) {
      DigitsEndIsRun(s, j + 1);
    }
  }

  /** `\d{1,3}\.` at `j`: where the dot is. The greedy count can give back digits, but a shorter
      group is followed by a digit and not by the dot, so this succeeds exactly when the whole run
      of digits is one to three long and a dot follows it. */
  function OctetDotAt(s: string, j: nat): (r: Option<nat>)
    requires j <= |s|
    ensures r.Some? ==> j < r.value < |s|
  {
    var d := DigitsEnd(s, j);
    if 1 <= d - j <= 3 && d < |s| && s[d] == '.' then Some(d) else None
  }

  /** What `\d{1,3}\.` matches is one to three digits and then the dot. */
  lemma OctetDotAtFinds(s: string, j: nat)
    requires j <= |s| && OctetDotAt(s, j).Some?
    ensures var d := OctetDotAt(s, j).value; s[d] == '.' && IsOctetText(s[j..d])
  {
    var d := OctetDotAt(s, j).value;
    DigitsEndIsRun(s, j);
    assert forall k | 0 <= k < d - j :: s[j..d][k] == s[j + k];
  }

  /** The final `\d{1,3}` at `j`: where it ends. It takes up to three digits and needs nothing
      after them. */
  function OctetEnd(s: string, j: nat): (r: Option<nat>)
    requires j <= |s|
    ensures r.Some? ==> j < r.value <= |s|
  {
    var d := DigitsEnd(s, j);
    if d == j then None
    else Some(if d - j > 3 then j + 3 else d)
  }

  /** What the final `\d{1,3}` matches is one to three digits. */
  lemma OctetEndFinds(s: string, j: nat)
    requires j <= |s| && OctetEnd(s, j).Some?
    ensures IsOctetText(s[j..OctetEnd(s, j).value])
  {
    var e := OctetEnd(s, j).value;
    DigitsEndIsRun(s, j);
    assert forall k | 0 <= k < e - j :: s[j..e][k] == s[j + k];
  }

  /** Where the four groups of `\d{1,3}\.\d{1,3}\.\d{1,3}\.\d{1,3}` end when it matches at `j`:
      the three dots and the end of the last group. */
  function QuadEnds(s: string, j: nat): (r: Option<(nat, nat, nat, nat)>)
    requires j <= |s|
    ensures r.Some? ==> var (e1, e2, e3, e) := r.value; j < e1 < e2 < e3 < e <= |s|
  {
    match OctetDotAt(s, j)
    case None => None
    case Some(e1) =>
      match OctetDotAt(s, e1 + 1)
      case None => None
      case Some(e2) =>
        match OctetDotAt(s, e2 + 1)
        case None => None
        case Some(e3) =>
          match OctetEnd(s, e3 + 1)
          case None => None
          case Some(e) => Some((e1, e2, e3, e))
  }

  /** A match of the four groups has a dot at each of the three cuts and one to three digits in
      each piece. */
  lemma QuadEndsPieces(s: string, j: nat)
    requires j <= |s| && QuadEnds(s, j).Some?
    ensures var (e1, e2, e3, e) := QuadEnds(s, j).value;
            s[e1] == '.' && s[e2] == '.' && s[e3] == '.' &&
            IsOctetText(s[j..e1]) && IsOctetText(s[e1 + 1..e2]) && IsOctetText(s[e2 + 1..e3]) && IsOctetText(s[e3 + 1..e])
  {
    var e1 := OctetDotAt(s, j).value;
    var e2 := OctetDotAt(s, e1 + 1).value;
    var e3 := OctetDotAt(s, e2 + 1).value;
    OctetDotAtFinds(s, j);
    OctetDotAtFinds(s, e1 + 1);
    OctetDotAtFinds(s, e2 + 1);
    OctetEndFinds(s, e3 + 1);
  }

  /** The capture of the dotted-quad group at `j`, if it matches there. */
  function QuadAt(s: string, j: nat): (r: Option<string>)
    requires j <= |s|
    ensures r.Some? ==> j + |r.value| <= |s|
  {
    match QuadEnds(s, j)
    case None => None
    case Some((_, _, _, e)) => Some(s[j..e])
  }

  /** What the group captures is always a dotted quad. */
  lemma QuadAtIsDottedQuad(s: string, j: nat)
    requires j <= |s| && QuadAt(s, j).Some?
    ensures IsDottedQuad(QuadAt(s, j).value)
  {
    var (e1, e2, e3, e) := QuadEnds(s, j).value;
    QuadEndsPieces(s, j);
    DotJoined(s, j, e1, e2, e3, e);
    QuadOfOctets(s[j..e1], s[e1 + 1..e2], s[e2 + 1..e3], s[e3 + 1..e]);
  }

  lemma QuadOfOctets(p1: string, p2: string, p3: string, p4: string)
    requires IsOctetText(p1) && IsOctetText(p2) && IsOctetText(p3) && IsOctetText(p4)
    ensures IsDottedQuad(p1 + "." + p2 + "." + p3 + "." + p4)
  {
  }

  /** A slice cut at three dots is its four pieces joined by dots. */
  lemma DotJoined(s: string, j: nat, e1: nat, e2: nat, e3: nat, e: nat)
    requires j <= e1 < e2 < e3 < e <= |s| && s[e1] == '.' && s[e2] == '.' && s[e3] == '.'
    ensures s[j..e] == s[j..e1] + "." + s[e1 + 1..e2] + "." + s[e2 + 1..e3] + "." + s[e3 + 1..e]
  {
    DotSplit(s, j, e1, e);
    DotSplit(s, e1 + 1, e2, e);
    DotSplit(s, e2 + 1, e3, e);
  }

  lemma DotSplit(s: string, a: nat, m: nat, b: nat)
    requires a <= m < b <= |s| && s[m] == '.'
    ensures s[a..b] == s[a..m] + "." + s[m + 1..b]
  {
    assert s[a..b] == s[a..m] + s[m..m + 1] + s[m + 1..b];
  }

  /** The report label at `i`, followed by the dotted quad `a`. */
  predicate ReportedAt(s: string, i: int, a: string)
    requires 0 <= i <= |s|
  {
    StartsAt(s, i, ReportLabel) && QuadAt(s, i + |ReportLabel|) == Some(a)
  }

  /** The pattern `<lead>(\d{1,3}\.\d{1,3}\.\d{1,3}\.\d{1,3})` at `pos`: its capture, if it
      matches there. A match lies within `s`. */
  function CaptureAt(s: string, lead: string, pos: nat): (r: Option<string>)
    requires pos <= |s|
    ensures r.Some? ==> pos + |lead| + |r.value| <= |s|
  {
    if StartsAt(s, pos, lead) then QuadAt(s, pos + |lead|) else None
  }

  /** The captures findall returns from `pos` on, left to right; a match resumes the search at its
      end, and a position where the pattern fails moves the search on by one. */
  function FindAddresses(s: string, lead: string, pos: nat): seq<string>
    requires pos <= |s|
    decreases |s| - pos
  {
    if pos == |s| then []
    else match CaptureAt(s, lead, pos)
      case Some(a) => [a] + FindAddresses(s, lead, pos + |lead| + |a|)
      case None => FindAddresses(s, lead, pos + 1)
  }

  /** Every address findall returns is the capture of a match at some position. */
  lemma {:induction false} FindAddressesAreCaptures(s: string, lead: string, pos: nat)
    requires pos <= |s|
    ensures forall a | a in FindAddresses(s, lead, pos) :: exists i | pos <= i < |s| :: CaptureAt(s, lead, i) == Some(a)
    decreases |s| - pos
  {
    if pos < |s| {
      match CaptureAt(s, lead, pos)
      case Some(a) =>
        var next := pos + |lead| + |a|;
        var rest := FindAddresses(s, lead, next);
        FindAddressesAreCaptures(s, lead, next);
        assert FindAddresses(s, lead, pos) == [a] + rest;
        forall b | b in [a] + rest ensures exists i | pos <= i < |s| :: CaptureAt(s, lead, i) == Some(b) {
          if b != a {
            assert b in rest;
          }
        }
      case None =>
        FindAddressesAreCaptures(s, lead, pos + 1);
    }
  }

  /** `_parse_nmap_output`: the set of captures. */
  function Discovered(output: string): set<string> {
    set a | a in FindAddresses(output, ReportLabel, 0)
  }

  /** Every discovered address is a dotted quad captured right after "Nmap scan report for ". */
  lemma DiscoveredAreReported(output: string, a: string)
    requires a in Discovered(output)
    ensures IsDottedQuad(a)
    ensures exists i | 0 <= i <= |output| :: ReportedAt(output, i, a)
  {
    FindAddressesAreCaptures(output, ReportLabel, 0);
    var i :| 0 <= i < |output| && CaptureAt(output, ReportLabel, i) == Some(a);
    assert ReportedAt(output, i, a);
    QuadAtIsDottedQuad(output, i + |ReportLabel|);
  }

  /** An output that reports an address holds the label; output without it reports none. */
  lemma AddressNeedsReport(output: string)
    ensures Discovered(output) != {} ==> Contains(output, ReportLabel)
  {
    if a :| a in Discovered(output) {
      DiscoveredAreReported(output, a);
    }
  }

  /** Every character of a captured dotted quad is a digit or a dot. */
  lemma QuadAtChars(s: string, j: nat)
    requires j <= |s| && QuadAt(s, j).Some?
    ensures forall k | j <= k < j + |QuadAt(s, j).value| :: IsDigit(s[k]) || s[k] == '.'
  {
    var (e1, e2, e3, e) := QuadEnds(s, j).value;
    QuadEndsPieces(s, j);
    forall k | j <= k < e ensures IsDigit(s[k]) || s[k] == '.' {
      if k < e1 {
        assert s[j..e1][k - j] == s[k];
      } else if e1 < k < e2 {
        assert s[e1 + 1..e2][k - e1 - 1] == s[k];
      } else if e2 < k < e3 {
        assert s[e2 + 1..e3][k - e2 - 1] == s[k];
      } else if e3 < k {
        assert s[e3 + 1..e][k - e3 - 1] == s[k];
      }
    }
  }

  /** A lead whose first character is neither a digit nor a dot and occurs nowhere else in it:
      no match of the pattern can start inside another match. */
  predicate SelfSeparating(lead: string) {
    |lead| > 0 && !IsDigit(lead[0]) && lead[0] != '.' && forall k | 0 < k < |lead| :: lead[k] != lead[0]
  }

  lemma ReportLabelIsSelfSeparating()
    ensures SelfSeparating(ReportLabel)
  {
  }

  /** A match at `pos` ends at or before any later position where the lead occurs. */
  lemma MatchEndsBeforeLead(s: string, lead: string, pos: nat, i: nat, b: string)
    requires SelfSeparating(lead) && pos < i && StartsAt(s, i, lead)
    requires CaptureAt(s, lead, pos) == Some(b)
    ensures pos + |lead| + |b| <= i
  {
    assert s[i] == s[i..i + |lead|][0] == lead[0];
    if pos + |lead| <= i < pos + |lead| + |b| {
      QuadAtChars(s, pos + |lead|);
    }
  }

  /** Where findall searches next after trying `pos`: the end of the match there, or the next
      position. */
  function NextSearch(s: string, lead: string, pos: nat): (n: nat)
    requires pos < |s|
    ensures pos < n <= |s|
  {
    match CaptureAt(s, lead, pos)
    case Some(a) => pos + |lead| + |a|
    case None => pos + 1
  }

  /** A capture at the position tried is returned. */
  lemma FoundHere(s: string, lead: string, pos: nat, a: string)
    requires pos < |s| && CaptureAt(s, lead, pos) == Some(a)
    ensures a in FindAddresses(s, lead, pos)
  {
    assert FindAddresses(s, lead, pos)[0] == a;
  }

  /** What is returned from the next search position is returned from `pos`. */
  lemma FoundLater(s: string, lead: string, pos: nat, a: string)
    requires pos < |s| && a in FindAddresses(s, lead, NextSearch(s, lead, pos))
    ensures a in FindAddresses(s, lead, pos)
  {
    match CaptureAt(s, lead, pos)
    case Some(b) =>
      assert FindAddresses(s, lead, pos) == [b] + FindAddresses(s, lead, NextSearch(s, lead, pos));
    case None =>
  }

  /** The search never jumps past a later position where the lead occurs. */
  lemma NextSearchBeforeLead(s: string, lead: string, pos: nat, i: nat)
    requires SelfSeparating(lead) && pos < i && StartsAt(s, i, lead)
    ensures NextSearch(s, lead, pos) <= i
  {
    if c :| CaptureAt(s, lead, pos) == Some(c) {
      MatchEndsBeforeLead(s, lead, pos, i, c);
    }
  }

  /** findall from `pos` returns the capture of every match at or after `pos`, for a lead that
      cannot overlap itself or a capture. */
  lemma {:induction false} CaptureIsFound(s: string, lead: string, pos: nat, i: nat, a: string)
    requires SelfSeparating(lead) && pos <= i < |s| && CaptureAt(s, lead, i) == Some(a)
    ensures a in FindAddresses(s, lead, pos)
    decreases i - pos
  {
    if pos == i {
      FoundHere(s, lead, pos, a);
    } else {
      NextSearchBeforeLead(s, lead, pos, i);
      CaptureIsFound(s, lead, NextSearch(s, lead, pos), i, a);
      FoundLater(s, lead, pos, a);
    }
  }

  /** Every address reported right after "Nmap scan report for " is discovered. */
  lemma ReportedAreDiscovered(output: string, i: nat, a: string)
    requires i <= |output| && ReportedAt(output, i, a)
    ensures a in Discovered(output)
  {
    ReportLabelIsSelfSeparating();
    CaptureIsFound(output, ReportLabel, 0, i, a);
  }

  /** The discovered set is exactly the addresses reported after "Nmap scan report for ". */
  lemma DiscoveredIffReported(output: string, a: string)
    ensures a in Discovered(output) <==> exists i | 0 <= i <= |output| :: ReportedAt(output, i, a)
  {
    if a in Discovered(output) {
      DiscoveredAreReported(output, a);
    }
    if i :| 0 <= i <= |output| && ReportedAt(output, i, a) {
      ReportedAreDiscovered(output, i, a);
    }
  }

  // ---------------------------------------------------------------------------------------------
  // sorted(list(ips))
  // ---------------------------------------------------------------------------------------------

  predicate StrictlyIncreasing(xs: seq<string>) {
    forall i, j | 0 <= i < j < |xs| :: LexLess(xs[i], xs[j])
  }

  /** A non-empty set of strings has a least element. */
  lemma {:induction false} LeastExists(ss: set<string>) returns (m: string)
    requires ss != {}
    ensures m in ss && forall y | y in ss && y != m :: LexLess(m, y)
    decreases |ss|
  {
    var x :| x in ss;
    if ss == {x} {
      m := x;
    } else {
      var m' := LeastExists(ss - {x});
      if x != m' {
        LexLessTotal(x, m');
      }
      if x != m' && LexLess(x, m') {
        m := x;
        forall y | y in ss && y != m ensures LexLess(m, y) {
          if y != m' {
            LexLessTransitive(x, m', y);
          }
        }
      } else {
        m := m';
      }
    }
  }

  /** `sorted(list(ss))`: the elements of the set, each once, in increasing order. */
  method SortedStrings(ss: set<string>) returns (r: seq<string>)
    ensures StrictlyIncreasing(r)
    ensures (set x | x in r) == ss
    ensures |r| == |ss|
  {
    var rest := ss;
    r := [];
    while rest != {}
      invariant SortedSoFar(r, rest, ss)
      decreases |rest|
    {
      ghost var least := LeastExists(rest);
      var m :| m in rest && forall y | y in rest && y != m :: LexLess(m, y);
      SortStep(r, rest, ss, m);
      r := r + [m];
      rest := rest - {m};
    }
  }

  /** Selection sort so far: `r` holds, in increasing order, the elements of `ss` that are not
      left in `rest`, and each of them is below everything left. */
  predicate SortedSoFar(r: seq<string>, rest: set<string>, ss: set<string>) {
    (set x | x in r) + rest == ss && (set x | x in r) !! rest && |r| + |rest| == |ss| &&
    StrictlyIncreasing(r) && forall x, y | x in r && y in rest :: LexLess(x, y)
  }

  /** Moving the least element left over to the end of `r` keeps the sort so far. */
  lemma SortStep(r: seq<string>, rest: set<string>, ss: set<string>, m: string)
    requires SortedSoFar(r, rest, ss)
    requires m in rest && forall y | y in rest && y != m :: LexLess(m, y)
    ensures SortedSoFar(r + [m], rest - {m}, ss)
  {
    AppendIncreasing(r, m);
    AppendBelowRest(r, rest, m);
    SetOfAppend(r, m);
  }

  lemma AppendIncreasing(r: seq<string>, m: string)
    requires StrictlyIncreasing(r) && forall x | x in r :: LexLess(x, m)
    ensures StrictlyIncreasing(r + [m])
  {
    var r' := r + [m];
    forall i, j | 0 <= i < j < |r'| ensures LexLess(r'[i], r'[j]) {
      assert r'[i] == r[i];
      if j == |r| {
        assert r[i] in r;
      }
    }
  }

  lemma AppendBelowRest(r: seq<string>, rest: set<string>, m: string)
    requires forall x, y | x in r && y in rest :: LexLess(x, y)
    requires m in rest && forall y | y in rest && y != m :: LexLess(m, y)
    ensures forall x, y | x in r + [m] && y in rest - {m} :: LexLess(x, y)
  {
  }

  lemma SetOfAppend(r: seq<string>, m: string)
    ensures (set x | x in r + [m]) == (set x | x in r) + {m}
  {
  }

  // ---------------------------------------------------------------------------------------------
  // NmapRunner.host_discovery
  // ---------------------------------------------------------------------------------------------

  /** The three sweeps, in the order they are tried. */
  function Probes(cidr: string): seq<Command> {
    [["nmap", "-sn", "-PR", cidr], ["nmap", "-sn", "-PE", cidr], ["nmap", "-sn", "-Pn", cidr]]
  }

  /** What one sweep adds to the set: its addresses when it exits with 0, nothing otherwise. */
  function Found(o: Outcome): set<string> {
    if o.Exit? && o.code == 0 then Discovered(o.stdout) else {}
  }

  /** A sweep that completed and found nothing, after which the next one runs. */
  predicate Silent(o: Outcome) {
    o.Exit? && Found(o) == {}
  }

  /** Where a run of sweeps ends: the addresses gathered, or the exception that ended it, and the
      commands run, in order. */
  datatype Sweep = Sweep(found: Result<set<string>, Error>, commands: seq<Command>)

  /** The sweeps `probes` tried in order, each only while nothing has been found; a timeout ends
      them with the exception. */
  function Sweeps(probes: seq<Command>, run: Runner): Sweep
    decreases |probes|
  {
    if probes == [] then Sweep(Ok({}), [])
    else
      var o := run(probes[0]);
      if o.Timeout? then Sweep(Err(TimeoutExpired), [probes[0]])
      else if !Silent(o) then Sweep(Ok(Found(o)), [probes[0]])
      else
        var rest := Sweeps(probes[1..], run);
        Sweep(rest.found, [probes[0]] + rest.commands)
  }

  /** The sweeps run are the first ones of the list, at least one of them. */
  lemma {:induction false} SweepsArePrefix(probes: seq<Command>, run: Runner)
    requires probes != []
    ensures var c := Sweeps(probes, run).commands;
            1 <= |c| <= |probes| && c == probes[..|c|]
    decreases |probes|
  {
    if Silent(run(probes[0])) && |probes| > 1 {
      SweepsArePrefix(probes[1..], run);
      var c' := Sweeps(probes[1..], run).commands;
      assert [probes[0]] + c' == [probes[0]] + probes[1..][..|c'|];
      assert probes[..|c'| + 1] == [probes[0]] + probes[1..][..|c'|];
    }
  }

  /** Every sweep before the last one run completed and found nothing. */
  lemma {:induction false} EarlierSweepsFoundNothing(probes: seq<Command>, run: Runner)
    ensures var c := Sweeps(probes, run).commands;
            forall k | 0 <= k < |c| - 1 :: Silent(run(c[k]))
    decreases |probes|
  {
    if probes != [] && Silent(run(probes[0])) {
      var rest := probes[1..];
      EarlierSweepsFoundNothing(rest, run);
      var c' := Sweeps(rest, run).commands;
      assert var c0 := Sweeps(rest, run).commands; forall k | 0 <= k < |c0| - 1 :: Silent(run(c0[k]));
      var c := [probes[0]] + c';
      assert Sweeps(probes, run).commands == c;
      forall k | 1 <= k < |c| - 1 ensures Silent(run(c[k])) {
        assert c[k] == c'[k - 1];
      }
      assert c[0] == probes[0];
    }
  }

  /** The last sweep run decides the outcome: a timeout is the exception; otherwise the addresses
      are those it found, and it found some unless it was the last sweep of the list. */
  lemma {:induction false} LastSweepDecides(probes: seq<Command>, run: Runner)
    requires probes != []
    ensures var sw := Sweeps(probes, run);
            |sw.commands| >= 1 &&
            var last := run(sw.commands[|sw.commands| - 1]);
            (sw.found.Err? <==> last.Timeout?) &&
            (sw.found.Err? ==> sw.found.error == TimeoutExpired) &&
            (sw.found.Ok? ==> sw.found.value == Found(last)) &&
            (|sw.commands| < |probes| && sw.found.Ok? ==> Found(last) != {})
    decreases |probes|
  {
    var o := run(probes[0]);
    if Silent(o) && |probes| > 1 {
      LastSweepDecides(probes[1..], run);
    }
  }

  /** A sweep that finds nothing hands over to the rest of the list. */
  lemma NothingFoundGoesOn(probes: seq<Command>, run: Runner)
    requires probes != [] && Silent(run(probes[0]))
    ensures Sweeps(probes, run) == Sweep(Sweeps(probes[1..], run).found, [probes[0]] + Sweeps(probes[1..], run).commands)
  {
  }

  /** A first sweep that finds addresses is the only one. */
  lemma FirstFindIsFinal(probes: seq<Command>, run: Runner)
    requires probes != [] && run(probes[0]).Exit? && Found(run(probes[0])) != {}
    ensures Sweeps(probes, run) == Sweep(Ok(Found(run(probes[0]))), [probes[0]])
  {
  }

  /** The three sweeps of `host_discovery`, run against the set `ips`: each sweep is run, a
      timeout escapes, a successful exit adds what it reports, and the next sweep runs only while
      the set is empty. */
  method RunSweeps(probes: seq<Command>, run: Runner) returns (found: Result<set<string>, Error>, commands: seq<Command>)
    requires |probes| == 3
    ensures Sweep(found, commands) == Sweeps(probes, run)
  {
    var ips: set<string> := {};

    var outcome := run(probes[0]);
    commands := [probes[0]];
    if outcome.Timeout? {
      return Err(TimeoutExpired), commands;
    }
    if outcome.code == 0 {
      ips := ips + Discovered(outcome.stdout);
    }
    assert ips == Found(outcome);

    if ips == {} {
      var rest := probes[1..];
      NothingFoundGoesOn(probes, run);
      outcome := run(rest[0]);
      commands := commands + [rest[0]];
      if outcome.Timeout? {
        return Err(TimeoutExpired), commands;
      }
      if outcome.code == 0 {
        ips := ips + Discovered(outcome.stdout);
      }
      assert ips == Found(outcome);

      if ips == {} {
        var last := rest[1..];
        NothingFoundGoesOn(rest, run);
        outcome := run(last[0]);
        commands := commands + [last[0]];
        if outcome.Timeout? {
          return Err(TimeoutExpired), commands;
        }
        if outcome.code == 0 {
          ips := ips + Discovered(outcome.stdout);
        }
        assert ips == Found(outcome);
        assert last[1..] == [];
      }
    }
    found := Ok(ips);
  }

  /** `NmapRunner.host_discovery(cidr)`. An invalid network raises before any sweep. Otherwise the
      three sweeps run as `Sweeps` says, and the addresses gathered come back sorted, each once. */
  method HostDiscovery(cidr: string, isNetwork: string -> bool, run: Runner)
    returns (r: Result<seq<string>, Error>, commands: seq<Command>)
    ensures !isNetwork(cidr) ==> r == Err(InvalidNetwork(cidr)) && commands == []
    ensures isNetwork(cidr) ==> var sw := Sweeps(Probes(cidr), run);
              commands == sw.commands &&
              (sw.found.Err? ==> r == Err(sw.found.error)) &&
              (sw.found.Ok? ==> r.Ok? && StrictlyIncreasing(r.value) && (set x | x in r.value) == sw.found.value)
  {
    if !isNetwork(cidr) {
      return Err(InvalidNetwork(cidr)), [];
    }
    var found;
    found, commands := RunSweeps(Probes(cidr), run);
    if found.Err? {
      return Err(found.error), commands;
    }
    var sorted := SortedStrings(found.value);
    r := Ok(sorted);
  }
}
