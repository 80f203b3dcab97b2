/** The service detector: one version scan of the given ports of an address, read into a map from
    port to the service description nmap printed for it. */
module ServiceDetector {
  import opened Wrappers
  import opened Errors
  import opened Subprocess
  import opened Text

  // ---------------------------------------------------------------------------------------------
  // re.finditer(r"(\d+)/tcp\s+open\s+\S+\s+(.*?)(?:\n|$)", output)
  // ---------------------------------------------------------------------------------------------

  /** One match: the port (group 1 as an integer), the stripped description (group 2) and the
      position where the match ends, from which the next search starts. */
  datatype ServiceMatch = ServiceMatch(port: int, service: string, end: nat)

  predicate NotSpace(c: char) {
    !IsSpace(c)
  }

  /** `(\d+)/tcp\s+open` matches at `i` with the digits ending at `d` and "open" ending at `e`:
      digits, then "/tcp", then a run of whitespace, then "open". */
  predicate HeadPieces(s: string, i: nat, d: nat, e: nat) {
    && i < d && d + 4 < e - 4 && e <= |s|
    && AllDigits(s[i..d])
    && StartsAt(s, d, "/tcp")
    && (forall k | d + 4 <= k < e - 4 :: IsSpace(s[k]))
    && StartsAt(s, e - 4, "open")
  }

  /** `(\d+)/tcp\s+open` at position `i`: where the digits end and where "open" ends. Each of
      `\d+` and `\s+` can only succeed with its longest run, because the character after a
      shorter run is again one the run accepts and not one the next element of the pattern does. */
  function HeadAt(s: string, i: nat): (r: Option<(nat, nat)>)
    requires i <= |s|
    ensures r.Some? ==> i < r.value.0 && r.value.0 + 9 <= r.value.1 <= |s|
    ensures r.Some? ==> AllDigits(s[i..r.value.0])
  {
    var d := SpanEnd(s, i, IsDigit);
    if d == i || !StartsAt(s, d, "/tcp") then None
    else
      var w1 := SpanEnd(s, d + 4, IsSpace);
      if w1 == d + 4 || !StartsAt(s, w1, "open") then None
      else
        assert forall k | 0 <= k < d - i :: s[i..d][k] == s[i + k];
        Some((d, w1 + 4))
  }

  /** What `HeadAt` finds are the pieces of the head. */
  lemma HeadAtSound(s: string, i: nat)
    requires i <= |s| && HeadAt(s, i).Some?
    ensures HeadPieces(s, i, HeadAt(s, i).value.0, HeadAt(s, i).value.1)
  {
  }

  /** `HeadAt` finds the head exactly where its pieces occur, and then those pieces. */
  lemma HeadAtIsPattern(s: string, i: nat, d: nat, e: nat)
    requires i <= |s|
    ensures HeadAt(s, i) == Some((d, e)) <==> HeadPieces(s, i, d, e)
  {
    if HeadAt(s, i) == Some((d, e)) {
      HeadAtSound(s, i);
    }
    if HeadPieces(s, i, d, e) {
      HeadAtComplete(s, i, d, e);
    }
  }

  /** Wherever the pieces of the head occur, `HeadAt` finds exactly them. */
  lemma HeadAtComplete(s: string, i: nat, d: nat, e: nat)
    requires i <= |s| && HeadPieces(s, i, d, e)
    ensures HeadAt(s, i) == Some((d, e))
  {
    assert s[d] == s[d..d + 4][0] == '/';
    assert s[e - 4] == s[e - 4..e][0] == 'o';
    assert forall k | i <= k < d :: s[k] == s[i..d][k - i];
    SpanEndIs(s, i, IsDigit, d);
    SpanEndIs(s, d + 4, IsSpace, e - 4);
  }

  /** `\s+\S+\s+` matches at `j` with the runs ending at `w2`, `t` and `w3`: whitespace, then
      non-whitespace, then whitespace taken to its end (what follows, `(.*?)`, never makes the
      greedy run give anything back). */
  predicate GapPieces(s: string, j: nat, w2: nat, t: nat, w3: nat) {
    && j < w2 < t < w3 <= |s|
    && (forall k | j <= k < w2 :: IsSpace(s[k]))
    && (forall k | w2 <= k < t :: !IsSpace(s[k]))
    && (forall k | t <= k < w3 :: IsSpace(s[k]))
    && (w3 < |s| ==> !IsSpace(s[w3]))
  }

  /** `\s+\S+\s+` at position `j`: where its three runs end. The last `\s+` takes its longest
      run too, newlines included. */
  function GapAt(s: string, j: nat): (r: Option<(nat, nat, nat)>)
    requires j <= |s|
    ensures r.Some? ==> j < r.value.0 < r.value.1 < r.value.2 <= |s|
  {
    var w2 := SpanEnd(s, j, IsSpace);
    var t := SpanEnd(s, w2, NotSpace);
    var w3 := SpanEnd(s, t, IsSpace);
    if w2 == j || t == w2 || w3 == t then None else Some((w2, t, w3))
  }

  /** What `GapAt` finds are the pieces of the gap. */
  lemma GapAtSound(s: string, j: nat)
    requires j <= |s| && GapAt(s, j).Some?
    ensures var (w2, t, w3) := GapAt(s, j).value; GapPieces(s, j, w2, t, w3)
  {
  }

  /** `GapAt` finds the gap exactly where its pieces occur, and then those pieces. */
  lemma GapAtIsPattern(s: string, j: nat, w2: nat, t: nat, w3: nat)
    requires j <= |s|
    ensures GapAt(s, j) == Some((w2, t, w3)) <==> GapPieces(s, j, w2, t, w3)
  {
    if GapAt(s, j) == Some((w2, t, w3)) {
      GapAtSound(s, j);
    }
    if GapPieces(s, j, w2, t, w3) {
      GapAtComplete(s, j, w2, t, w3);
    }
  }

  /** Wherever the pieces of the gap occur, `GapAt` finds exactly them. */
  lemma GapAtComplete(s: string, j: nat, w2: nat, t: nat, w3: nat)
    requires j <= |s| && GapPieces(s, j, w2, t, w3)
    ensures GapAt(s, j) == Some((w2, t, w3))
  {
    SpanEndIs(s, j, IsSpace, w2);
    assert forall k | w2 <= k < t :: NotSpace(s[k]);
    SpanEndIs(s, w2, NotSpace, t);
    SpanEndIs(s, t, IsSpace, w3);
  }

  /** The whole pattern tried at position `i`; after the gap, `(.*?)(?:\n|$)` always succeeds
      with the rest of that line. A match ends just after a newline or at the end of `s`. */
  function MatchAt(s: string, i: nat): (m: Option<ServiceMatch>)
    requires i <= |s|
    ensures m.Some? ==> i < m.value.end <= |s|
  {
    match HeadAt(s, i)
    case None => None
    case Some((d, e)) =>
      match GapAt(s, e)
      case None => None
      case Some((_, _, w3)) => Some(MatchFrom(s, i, d, w3))
  }

  /** The match with its digits in `s[i..d]` and its description starting at `w3`: the port is
      the value of the digits, the service the stripped rest of that line, and the match ends
      after the line's newline, or at the end of `s`. */
  function MatchFrom(s: string, i: nat, d: nat, w3: nat): (m: ServiceMatch)
    requires i < d <= w3 <= |s| && AllDigits(s[i..d])
    ensures w3 <= m.end <= |s|
    ensures m.end == |s| || s[m.end - 1] == '\n'
  {
    var q := LineEnd(s, w3);
    ServiceMatch(DecimalValue(s[i..d]), Strip(s[w3..q]), if q < |s| then q + 1 else q)
  }

  /** `m` is the match the pattern makes at `i` from the pieces of some head and gap there. */
  ghost predicate MatchesAt(s: string, i: nat, m: ServiceMatch)
    requires i <= |s|
  {
    exists d: nat, e: nat, w2: nat, t: nat, w3: nat |
      HeadPieces(s, i, d, e) && GapPieces(s, e, w2, t, w3) :: m == MatchFrom(s, i, d, w3)
  }

  /** `MatchAt` finds a match exactly when the pattern's pieces occur at `i`, and it is theirs. */
  lemma MatchAtIsPattern(s: string, i: nat, m: ServiceMatch)
    requires i <= |s|
    ensures MatchAt(s, i) == Some(m) <==> MatchesAt(s, i, m)
  {
    if MatchAt(s, i) == Some(m) {
      MatchAtHasPieces(s, i);
    }
    if MatchesAt(s, i, m) {
      PatternGivesMatchAt(s, i, m);
    }
  }

  lemma MatchAtHasPieces(s: string, i: nat)
    requires i <= |s| && MatchAt(s, i).Some?
    ensures MatchesAt(s, i, MatchAt(s, i).value)
  {
    var (d, e) := HeadAt(s, i).value;
    var (w2, t, w3) := GapAt(s, e).value;
    HeadAtSound(s, i);
    GapAtSound(s, e);
    assert HeadPieces(s, i, d, e) && GapPieces(s, e, w2, t, w3);
  }

  lemma PatternGivesMatchAt(s: string, i: nat, m: ServiceMatch)
    requires i <= |s| && MatchesAt(s, i, m)
    ensures MatchAt(s, i) == Some(m)
  {
    var d: nat, e: nat, w2: nat, t: nat, w3: nat :|
      HeadPieces(s, i, d, e) && GapPieces(s, e, w2, t, w3) && m == MatchFrom(s, i, d, w3);
    PiecesGiveMatchAt(s, i, d, e, w2, t, w3);
  }

  lemma PiecesGiveMatchAt(s: string, i: nat, d: nat, e: nat, w2: nat, t: nat, w3: nat)
    requires i <= |s| && HeadPieces(s, i, d, e) && GapPieces(s, e, w2, t, w3)
    ensures MatchAt(s, i) == Some(MatchFrom(s, i, d, w3))
  {
    HeadAtComplete(s, i, d, e);
    GapAtComplete(s, e, w2, t, w3);
  }

  /** The matches finditer yields from `pos` on: left to right, each search resuming where the
      previous match ended. */
  function FindServices(s: string, pos: nat): seq<ServiceMatch>
    requires pos <= |s|
    decreases |s| - pos
  {
    if pos == |s| then []
    else match MatchAt(s, pos)
      case Some(m) => [m] + FindServices(s, m.end)
      case None => FindServices(s, pos + 1)
  }

  /** A match ends just after the newline that ends its line, or at the end of the output. */
  lemma MatchEndsLine(s: string, i: nat)
    requires i <= |s| && MatchAt(s, i).Some?
    ensures MatchAt(s, i).value.end == |s| || s[MatchAt(s, i).value.end - 1] == '\n'
  {
  }

  /** Every match finditer yields is the match of the pattern at some position. */
  lemma {:induction false} FindServicesAreMatches(s: string, pos: nat)
    requires pos <= |s|
    ensures forall m | m in FindServices(s, pos) :: exists i | pos <= i < |s| :: MatchAt(s, i) == Some(m)
    decreases |s| - pos
  {
    if pos < |s| {
      var next := if MatchAt(s, pos).Some? then MatchAt(s, pos).value.end else pos + 1;
      FindServicesAreMatches(s, next);
      MatchesFromNext(s, pos);
    }
  }

  /** The step of that induction: what holds from the next search position holds from `pos`. */
  lemma MatchesFromNext(s: string, pos: nat)
    requires pos < |s|
    requires var next := if MatchAt(s, pos).Some? then MatchAt(s, pos).value.end else pos + 1;
             forall m | m in FindServices(s, next) :: exists i | next <= i < |s| :: MatchAt(s, i) == Some(m)
    ensures forall m | m in FindServices(s, pos) :: exists i | pos <= i < |s| :: MatchAt(s, i) == Some(m)
  {
    match MatchAt(s, pos)
    case Some(m) =>
      var rest := FindServices(s, m.end);
      assert FindServices(s, pos) == [m] + rest;
      forall b | b in [m] + rest ensures exists i | pos <= i < |s| :: MatchAt(s, i) == Some(b) {
        if b != m {
          assert b in rest;
        }
      }
    case None =>
      assert FindServices(s, pos) == FindServices(s, pos + 1);
  }

  /** The dictionary that `services[port] = service` builds over the matches in order. */
  function ServiceMap(ms: seq<ServiceMatch>): map<int, string>
    decreases |ms|
  {
    if |ms| == 0 then map[]
    else ServiceMap(ms[..|ms| - 1])[ms[|ms| - 1].port := ms[|ms| - 1].service]
  }

  /** The keys are exactly the ports that some match reported. */
  lemma {:induction false} ServiceMapKeys(ms: seq<ServiceMatch>)
    ensures forall p :: p in ServiceMap(ms) <==> exists k | 0 <= k < |ms| :: ms[k].port == p
    decreases |ms|
  {
    if |ms| > 0 {
      var init := ms[..|ms| - 1];
      ServiceMapKeys(init);
      forall p | p in ServiceMap(ms) ensures exists k | 0 <= k < |ms| :: ms[k].port == p {
        if p != ms[|ms| - 1].port {
          assert p in ServiceMap(init);
          var k :| 0 <= k < |init| && init[k].port == p;
          assert ms[k].port == p;
        }
      }
      forall p | exists k | 0 <= k < |ms| :: ms[k].port == p ensures p in ServiceMap(ms) {
        var k :| 0 <= k < |ms| && ms[k].port == p;
        if k < |init| {
          assert init[k].port == p;
        }
      }
    }
  }

  /** A later match for a port overwrites an earlier one: the value kept is the description of
      the last match for that port. */
  lemma {:induction false} ServiceMapLastWins(ms: seq<ServiceMatch>, k: nat)
    requires k < |ms|
    requires forall j | k < j < |ms| :: ms[j].port != ms[k].port
    ensures ms[k].port in ServiceMap(ms)
    ensures ServiceMap(ms)[ms[k].port] == ms[k].service
    decreases |ms|
  {
    if k < |ms| - 1 {
      var init := ms[..|ms| - 1];
      assert forall j | k < j < |init| :: init[j].port == ms[j].port;
      ServiceMapLastWins(init, k);
    }
  }

  /** `_parse_nmap_output`: every match stores its description under its port. */
  method ParseNmapOutput(output: string) returns (services: map<int, string>)
    ensures services == ServiceMap(FindServices(output, 0))
  {
    var matches := FindServices(output, 0);
    services := map[];
    for k := 0 to |matches|
      invariant services == ServiceMap(matches[..k])
    {
      assert matches[..k + 1][..k] == matches[..k];
      var m := matches[k];
      services := services[m.port := m.service];
    }
    assert matches[..|matches|] == matches;
  }

  /** Once the head and the gap are found, the match is the rest of that line: the port is the
      value of the digits, the service the stripped rest of the line, and the next search starts
      after the newline. */
  lemma MatchOfLine(s: string, digits: string, desc: string, j: nat, w3: nat, q: nat)
    requires q < |s| && s[q] == '\n'
    requires HeadAt(s, 0) == Some((|digits|, j)) && s[0..|digits|] == digits
    requires GapAt(s, j).Some? && GapAt(s, j).value.2 == w3 && w3 <= q
    requires forall k | w3 <= k < q :: s[k] != '\n'
    requires s[w3..q] == desc
    ensures MatchAt(s, 0) == Some(ServiceMatch(DecimalValue(digits), Strip(desc), q + 1))
  {
    assert MatchAt(s, 0) == Some(MatchFrom(s, 0, |digits|, w3));
    MatchFromLine(s, digits, desc, w3, q);
  }

  lemma MatchFromLine(s: string, digits: string, desc: string, w3: nat, q: nat)
    requires 0 < |digits| <= w3 <= q < |s| && s[q] == '\n'
    requires s[0..|digits|] == digits && AllDigits(digits)
    requires forall k | w3 <= k < q :: s[k] != '\n'
    requires s[w3..q] == desc
    ensures MatchFrom(s, 0, |digits|, w3) == ServiceMatch(DecimalValue(digits), Strip(desc), q + 1)
  {
    assert forall k | w3 <= k < q :: NotNewline(s[k]);
    SpanEndIs(s, w3, NotNewline, q);
  }

  /** `<digits>/tcp<spaces>open` at the start of `s`. */
  lemma HeadOfLine(s: string, digits: string, sp1: string, rest: string)
    requires |digits| > 0 && AllDigits(digits) && |sp1| > 0 && AllSpace(sp1)
    requires s == digits + "/tcp" + sp1 + "open" + rest
    ensures HeadAt(s, 0) == Some((|digits|, |digits| + 8 + |sp1|))
    ensures s[0..|digits|] == digits
  {
    var d := |digits|;
    var w1 := d + 4 + |sp1|;
    assert s[..d] == digits;
    assert s[d..d + 4] == "/tcp";
    assert s[w1..w1 + 4] == "open";
    assert forall k | 0 <= k < d :: s[k] == digits[k];
    assert forall k | d + 4 <= k < w1 :: s[k] == sp1[k - d - 4];
    HeadAtComplete(s, 0, d, w1 + 4);
  }

  /** `<spaces><name><spaces>` at position `|pre|`, followed by a character that is not a space. */
  lemma GapOfLine(s: string, pre: string, sp2: string, name: string, sp3: string, rest: string)
    requires |sp2| > 0 && AllSpace(sp2) && |sp3| > 0 && AllSpace(sp3)
    requires |name| > 0 && forall k | 0 <= k < |name| :: !IsSpace(name[k])
    requires |rest| > 0 && !IsSpace(rest[0])
    requires s == pre + sp2 + name + sp3 + rest
    ensures GapAt(s, |pre|) == Some((|pre| + |sp2|, |pre| + |sp2| + |name|, |pre| + |sp2| + |name| + |sp3|))
  {
    var j := |pre|;
    var w2 := j + |sp2|;
    var t := w2 + |name|;
    var w3 := t + |sp3|;
    assert forall k | j <= k < w2 :: s[k] == sp2[k - j];
    assert forall k | w2 <= k < t :: s[k] == name[k - w2];
    assert forall k | t <= k < w3 :: s[k] == sp3[k - t];
    assert s[w3] == rest[0];
    GapAtComplete(s, j, w2, t, w3);
  }

  /** The text of a service line: `<digits>/tcp<spaces>open<spaces><name><spaces><description>`. */
  function ServiceLine(digits: string, sp1: string, sp2: string, name: string, sp3: string, desc: string): string {
    digits + "/tcp" + sp1 + "open" + sp2 + name + sp3 + desc
  }

  /** The conditions under which `ServiceLine` is what nmap prints for an open port. */
  predicate WellFormedLine(digits: string, sp1: string, sp2: string, name: string, sp3: string, desc: string) {
    && |digits| > 0 && AllDigits(digits)
    && |sp1| > 0 && AllSpace(sp1) && |sp2| > 0 && AllSpace(sp2) && |sp3| > 0 && AllSpace(sp3)
    && |name| > 0 && (forall k | 0 <= k < |name| :: !IsSpace(name[k]))
    && |desc| > 0 && !IsSpace(desc[0]) && (forall k | 0 <= k < |desc| :: desc[k] != '\n')
  }

  /** A service line followed by a newline is one match: the port is the value of the digits,
      the service the stripped description, and the next search starts after the newline. The
      last run of spaces may hold newlines. */
  lemma LineMatch(digits: string, sp1: string, sp2: string, name: string, sp3: string, desc: string, rest: string)
    requires WellFormedLine(digits, sp1, sp2, name, sp3, desc)
    ensures var line := ServiceLine(digits, sp1, sp2, name, sp3, desc);
            var m := MatchAt(line + "\n" + rest, 0);
            m.Some? && m.value.port == DecimalValue(digits) && m.value.service == Strip(desc) && m.value.end == |line| + 1
  {
    var line := ServiceLine(digits, sp1, sp2, name, sp3, desc);
    var s := line + "\n" + rest;
    var head := |digits| + 8 + |sp1|;
    var w3 := head + |sp2| + |name| + |sp3|;
    LineHead(digits, sp1, sp2, name, sp3, desc, rest);
    LineGap(digits, sp1, sp2, name, sp3, desc, rest);
    LineRest(digits, sp1, sp2, name, sp3, desc, rest);
    MatchOfLine(s, digits, desc, head, w3, |line|);
  }

  /** finditer over a service line and whatever follows: that line's match, then the matches
      of the rest, searched from just after the newline. */
  lemma FindServicesAfterLine(digits: string, sp1: string, sp2: string, name: string, sp3: string, desc: string, rest: string)
    requires WellFormedLine(digits, sp1, sp2, name, sp3, desc)
    ensures var line := ServiceLine(digits, sp1, sp2, name, sp3, desc);
            var s := line + "\n" + rest;
            FindServices(s, 0) == [ServiceMatch(DecimalValue(digits), Strip(desc), |line| + 1)] + FindServices(s, |line| + 1)
  {
    LineMatch(digits, sp1, sp2, name, sp3, desc, rest);
  }

  lemma LineHead(digits: string, sp1: string, sp2: string, name: string, sp3: string, desc: string, rest: string)
    requires WellFormedLine(digits, sp1, sp2, name, sp3, desc)
    ensures var s := ServiceLine(digits, sp1, sp2, name, sp3, desc) + "\n" + rest;
            HeadAt(s, 0) == Some((|digits|, |digits| + 8 + |sp1|)) && s[0..|digits|] == digits
  {
    var s := ServiceLine(digits, sp1, sp2, name, sp3, desc) + "\n" + rest;
    var after := sp2 + name + sp3 + desc + "\n" + rest;
    assert s == digits + "/tcp" + sp1 + "open" + after;
    HeadOfLine(s, digits, sp1, after);
  }

  lemma LineGap(digits: string, sp1: string, sp2: string, name: string, sp3: string, desc: string, rest: string)
    requires WellFormedLine(digits, sp1, sp2, name, sp3, desc)
    ensures var s := ServiceLine(digits, sp1, sp2, name, sp3, desc) + "\n" + rest;
            var head := |digits| + 8 + |sp1|;
            GapAt(s, head) == Some((head + |sp2|, head + |sp2| + |name|, head + |sp2| + |name| + |sp3|))
  {
    var s := ServiceLine(digits, sp1, sp2, name, sp3, desc) + "\n" + rest;
    var head := digits + "/tcp" + sp1 + "open";
    var after := desc + "\n" + rest;
    LineAroundGap(digits, sp1, sp2, name, sp3, desc, rest);
    assert after[0] == desc[0];
    GapOfLine(s, head, sp2, name, sp3, after);
  }

  /** A service line, regrouped around its gap. */
  lemma LineAroundGap(digits: string, sp1: string, sp2: string, name: string, sp3: string, desc: string, rest: string)
    ensures ServiceLine(digits, sp1, sp2, name, sp3, desc) + "\n" + rest
            == (digits + "/tcp" + sp1 + "open") + sp2 + name + sp3 + (desc + "\n" + rest)
  {
  }

  lemma LineRest(digits: string, sp1: string, sp2: string, name: string, sp3: string, desc: string, rest: string)
    requires WellFormedLine(digits, sp1, sp2, name, sp3, desc)
    ensures var line := ServiceLine(digits, sp1, sp2, name, sp3, desc);
            var s := line + "\n" + rest;
            var w3 := |digits| + 8 + |sp1| + |sp2| + |name| + |sp3|;
            && |line| < |s| && s[|line|] == '\n'
            && (forall k | w3 <= k < |line| :: s[k] != '\n')
            && s[w3..|line|] == desc
  {
    var line := ServiceLine(digits, sp1, sp2, name, sp3, desc);
    var s := line + "\n" + rest;
    var w3 := |digits| + 8 + |sp1| + |sp2| + |name| + |sp3|;
    assert forall k | w3 <= k < |line| :: s[k] == desc[k - w3];
  }

  /** Output that is one service line gives exactly one service. */
  lemma SingleLineServices(output: string, digits: string, sp1: string, sp2: string, name: string, sp3: string, desc: string)
    requires WellFormedLine(digits, sp1, sp2, name, sp3, desc)
    requires output == ServiceLine(digits, sp1, sp2, name, sp3, desc) + "\n"
    ensures ServiceMap(FindServices(output, 0)) == map[DecimalValue(digits) := Strip(desc)]
  {
    LineMatch(digits, sp1, sp2, name, sp3, desc, "");
    assert output + "" == output;
    OnlyMatch(output);
  }

  /** A match that reaches the end of the output is the only one. */
  lemma OnlyMatch(s: string)
    requires |s| > 0 && MatchAt(s, 0).Some? && MatchAt(s, 0).value.end == |s|
    ensures ServiceMap(FindServices(s, 0)) == map[MatchAt(s, 0).value.port := MatchAt(s, 0).value.service]
  {
    var m := MatchAt(s, 0).value;
    assert FindServices(s, 0) == [m];
    assert [m][..0] == [];
  }

  /** nmap's line for an SSH server, "22/tcp open  ssh  OpenSSH 8.2", gives port 22 with the
      description "OpenSSH 8.2". */
  lemma SshLineParses(output: string)
    requires output == "22/tcp open  ssh  OpenSSH 8.2\n"
    ensures ServiceMap(FindServices(output, 0)) == map[22 := "OpenSSH 8.2"]
  {
    var digits, sp, gap, name, desc := "22", " ", "  ", "ssh", "OpenSSH 8.2";
    SshLinePieces(digits, sp, gap, name, desc);
    SshLineText(output, digits, sp, gap, name, desc);
    SingleLineServices(output, digits, sp, gap, name, gap, desc);
  }

  /** The pieces of that line meet the conditions of a service line. */
  lemma SshLinePieces(digits: string, sp: string, gap: string, name: string, desc: string)
    requires digits == "22" && sp == " " && gap == "  " && name == "ssh" && desc == "OpenSSH 8.2"
    ensures WellFormedLine(digits, sp, gap, name, gap, desc)
    ensures DecimalValue(digits) == 22 && Strip(desc) == desc
  {
    assert AllDigits(digits) && AllSpace(sp) && AllSpace(gap);
    assert forall k | 0 <= k < |name| :: !IsSpace(name[k]);
    assert forall k | 0 <= k < |desc| :: desc[k] != '\n';
    var d1 := digits[..1];
    assert d1 == "2" && d1[..0] == "";
    assert DecimalValue(d1) == 2;
    assert !IsSpace(desc[0]) && !IsSpace(desc[|desc| - 1]);
    StripWithoutSurroundingSpace(desc);
  }

  /** Those pieces make up that line. */
  lemma SshLineText(output: string, digits: string, sp: string, gap: string, name: string, desc: string)
    requires output == "22/tcp open  ssh  OpenSSH 8.2\n"
    requires digits == "22" && sp == " " && gap == "  " && name == "ssh" && desc == "OpenSSH 8.2"
    ensures ServiceLine(digits, sp, gap, name, gap, desc) + "\n" == output
  {
  }

  /** The `\s+` after the service name also takes a newline: when a service line has no
      description, the whole next line becomes that description, and the port of the next line
      is not reported. */
  lemma NameAtLineEndTakesNextLine(digits: string, sp1: string, sp2: string, name: string, next: string)
    requires WellFormedLine(digits, sp1, sp2, name, "\n", next)
    ensures ServiceMap(FindServices(digits + "/tcp" + sp1 + "open" + sp2 + name + "\n" + next + "\n", 0))
            == map[DecimalValue(digits) := Strip(next)]
  {
    SingleLineServices(digits + "/tcp" + sp1 + "open" + sp2 + name + "\n" + next + "\n", digits, sp1, sp2, name, "\n", next);
  }

  // ---------------------------------------------------------------------------------------------
  // ServiceDetector.detect
  // ---------------------------------------------------------------------------------------------

  /** `f"{ip}:{p}"` for every port, in order. */
  function PortArgs(ip: string, ports: seq<int>): seq<string> {
    seq(|ports|, k requires 0 <= k < |ports| => ip + ":" + IntToString(ports[k]))
  }

  /** `nmap -sV --version-intensity 2 <ip>:<p> ...`. */
  function ServiceCommand(ip: string, ports: seq<int>): Command {
    ["nmap", "-sV", "--version-intensity", "2"] + PortArgs(ip, ports)
  }

  /** The command names every requested port once, in the order given, as `<ip>:<port>`, and
      the port can be read back from the text after the address and colon. */
  lemma ServiceCommandNamesEachPort(ip: string, ports: seq<int>)
    ensures |ServiceCommand(ip, ports)| == 4 + |ports|
    ensures ServiceCommand(ip, ports)[..4] == ["nmap", "-sV", "--version-intensity", "2"]
    ensures forall k | 0 <= k < |ports| ::
              StartsAt(ServiceCommand(ip, ports)[4 + k], 0, ip + ":") &&
              ParseInt(ServiceCommand(ip, ports)[4 + k][|ip| + 1..]) == Some(ports[k])
  {
    var cmd := ServiceCommand(ip, ports);
    forall k | 0 <= k < |ports|
      ensures StartsAt(cmd[4 + k], 0, ip + ":") && ParseInt(cmd[4 + k][|ip| + 1..]) == Some(ports[k])
    {
      var arg := cmd[4 + k];
      assert arg == ip + ":" + IntToString(ports[k]);
      assert arg[|ip| + 1..] == IntToString(ports[k]);
      ParseIntOfIntToString(ports[k]);
    }
  }

  /** `ServiceDetector.detect(ip, ports)`. An invalid address raises before anything else, even
      for no ports; no ports means no command and no services; otherwise one command, and a
      timeout or a non-zero exit means no services. Nothing else raises. */
  function Detect(ip: string, ports: seq<int>, isAddress: string -> bool, run: Runner): (r: Invoked<map<int, string>>)
    ensures !isAddress(ip) ==> r == Invoked(Err(InvalidAddress(ip)), [])
    ensures isAddress(ip) ==> r.result.Ok?
    ensures isAddress(ip) && ports == [] ==> r == Invoked(Ok(map[]), [])
    ensures isAddress(ip) && ports != [] ==> r.commands == [ServiceCommand(ip, ports)]
    ensures isAddress(ip) && ports != [] ==> var o := run(ServiceCommand(ip, ports));
              (o.Timeout? || o.code != 0) ==> r.result == Ok(map[])
    ensures isAddress(ip) && ports != [] ==> var o := run(ServiceCommand(ip, ports));
              o.Exit? && o.code == 0 ==> r.result == Ok(ServiceMap(FindServices(o.stdout, 0)))
  {
    if !isAddress(ip) then Invoked(Err(InvalidAddress(ip)), [])
    else if |ports| == 0 then Invoked(Ok(map[]), [])
    else
      var cmd := ServiceCommand(ip, ports);
      match run(cmd)
      case Timeout => Invoked(Ok(map[]), [cmd])
      case Exit(code, stdout) =>
        if code != 0 then Invoked(Ok(map[]), [cmd])
        else Invoked(Ok(ServiceMap(FindServices(stdout, 0))), [cmd])
  }
}
