/** Detailed security checks: three nmap script probes of one address, each turning one flag of
    the result on when its output mentions a known weakness. */
module DetailedChecks {
  import opened Wrappers
  import opened Errors
  import opened Subprocess
  import opened Text

  const SmbKey := "smbv1"
  const ShareKey := "anonymous_share"
  const TlsKey := "weak_tls"

  const SmbMarker := "SMBv1 enabled"
  const ShareMarker := "Anonymous login"
  const TlsMarkers := ["TLSv1.0", "SSLv3"]

  function SmbCommand(ip: string): Command {
    ["nmap", "--script", "smb-protocols", "-p", "445", ip]
  }

  function ShareCommand(ip: string): Command {
    ["nmap", "--script", "smb-enum-shares", "-p", "445", ip]
  }

  function TlsCommand(ip: string): Command {
    ["nmap", "--script", "ssl-enum-ciphers", "-p", "443", ip]
  }

  /** `_run_nmap_script`: the output of a successful run, and the empty string for a failed run or
      a timeout. */
  function ScriptOutput(o: Outcome): (out: string)
    ensures out != "" ==> o.Exit? && o.code == 0 && out == o.stdout
    ensures o.Exit? && o.code == 0 ==> out == o.stdout
  {
    match o
    case Exit(code, stdout) => if code == 0 then stdout else ""
    case Timeout => ""
  }

  /** `result and marker in result`. */
  predicate Mentions(result: string, marker: string) {
    result != "" && Contains(result, marker)
  }

  /** The truthiness test in front of `in` never changes the answer for a non-empty marker. */
  lemma MentionsIsContains(result: string, marker: string)
    requires marker != ""
    ensures Mentions(result, marker) <==> Contains(result, marker)
  {
    if Contains(result, marker) {
      var i :| 0 <= i <= |result| && StartsAt(result, i, marker);
      assert |result| >= |marker| > 0;
    }
  }

  /** The result dictionary built from the three probe outputs: exactly the three keys, each flag
      on exactly when its own output names its weakness (TLSv1.0 or SSLv3 for TLS). */
  function Flags(smb: string, share: string, tls: string): (m: map<string, bool>)
    ensures m.Keys == {SmbKey, ShareKey, TlsKey}
    ensures m[SmbKey] <==> Contains(smb, SmbMarker)
    ensures m[ShareKey] <==> Contains(share, ShareMarker)
    ensures m[TlsKey] <==> Contains(tls, TlsMarkers[0]) || Contains(tls, TlsMarkers[1])
  {
    MentionsIsContains(smb, SmbMarker);
    MentionsIsContains(share, ShareMarker);
    MentionsIsContains(tls, TlsMarkers[0]);
    MentionsIsContains(tls, TlsMarkers[1]);
    map[SmbKey := Mentions(smb, SmbMarker), ShareKey := Mentions(share, ShareMarker),
        TlsKey := tls != "" && (Contains(tls, TlsMarkers[0]) || Contains(tls, TlsMarkers[1]))]
  }

  /** The flags of one address under a given scanner: each probe's output as `_run_nmap_script`
      returns it. */
  function Findings(ip: string, run: Runner): map<string, bool> {
    Flags(ScriptOutput(run(SmbCommand(ip))), ScriptOutput(run(ShareCommand(ip))),
          ScriptOutput(run(TlsCommand(ip))))
  }

  /** `DetailedChecks.run(ip)`. An invalid address raises before any probe. Otherwise the three
      probes run in order and the result is the flags of their outputs. */
  method RunChecks(ip: string, isAddress: string -> bool, run: Runner)
    returns (r: Result<map<string, bool>, Error>, commands: seq<Command>)
    ensures !isAddress(ip) ==> r == Err(InvalidAddress(ip)) && commands == []
    ensures isAddress(ip) ==> r == Ok(Findings(ip, run)) && commands == [SmbCommand(ip), ShareCommand(ip), TlsCommand(ip)]
  {
    if !isAddress(ip) {
      return Err(InvalidAddress(ip)), [];
    }
    var results := map[SmbKey := false, ShareKey := false, TlsKey := false];
    commands := [];

    var cmd := SmbCommand(ip);
    var result := ScriptOutput(run(cmd));
    ghost var smb := result;
    commands := commands + [cmd];
    if Mentions(result, SmbMarker) {
      results := results[SmbKey := true];
    }

    cmd := ShareCommand(ip);
    result := ScriptOutput(run(cmd));
    ghost var share := result;
    commands := commands + [cmd];
    if Mentions(result, ShareMarker) {
      results := results[ShareKey := true];
    }

    cmd := TlsCommand(ip);
    result := ScriptOutput(run(cmd));
    commands := commands + [cmd];
    if result != "" && (Contains(result, TlsMarkers[0]) || Contains(result, TlsMarkers[1])) {
      results := results[TlsKey := true];
    }

    var m := Flags(smb, share, result);
    assert results == m;
    r := Ok(results);
  }

  /** Probes that all succeed with empty output find nothing. */
  lemma QuietProbesFindNothing(ip: string, run: Runner)
    requires run(SmbCommand(ip)) == Exit(0, "") && run(ShareCommand(ip)) == Exit(0, "")
    requires run(TlsCommand(ip)) == Exit(0, "")
    ensures Findings(ip, run) == map[SmbKey := false, ShareKey := false, TlsKey := false]
  {
  }

  /** A probe that fails or times out turns its flag off, whatever it printed. */
  lemma FailedProbesFindNothing(ip: string, run: Runner)
    requires !(run(SmbCommand(ip)).Exit? && run(SmbCommand(ip)).code == 0)
    requires !(run(ShareCommand(ip)).Exit? && run(ShareCommand(ip)).code == 0)
    requires !(run(TlsCommand(ip)).Exit? && run(TlsCommand(ip)).code == 0)
    ensures Findings(ip, run) == map[SmbKey := false, ShareKey := false, TlsKey := false]
  {
  }

  /** Only the SMB probe reports "SMBv1 enabled": only the SMB flag is on. */
  lemma SmbOnlyIsFound(ip: string, run: Runner)
    requires run(SmbCommand(ip)) == Exit(0, SmbMarker)
    requires run(ShareCommand(ip)) == Exit(0, "") && run(TlsCommand(ip)) == Exit(0, "")
    ensures Findings(ip, run) == map[SmbKey := true, ShareKey := false, TlsKey := false]
  {
    assert StartsAt(SmbMarker, 0, SmbMarker);
  }

  /** Each probe reports its weakness: every flag is on. */
  lemma AllAreFound(ip: string, run: Runner)
    requires run(SmbCommand(ip)) == Exit(0, SmbMarker)
    requires run(ShareCommand(ip)) == Exit(0, ShareMarker)
    requires run(TlsCommand(ip)) == Exit(0, TlsMarkers[0])
    ensures Findings(ip, run) == map[SmbKey := true, ShareKey := true, TlsKey := true]
  {
    assert StartsAt(SmbMarker, 0, SmbMarker);
    assert StartsAt(ShareMarker, 0, ShareMarker);
    assert StartsAt(TlsMarkers[0], 0, TlsMarkers[0]);
  }
}
