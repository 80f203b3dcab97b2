/** OS fingerprinting: one `nmap -O` run for an address, read for the line nmap labels
    "OS details: ", or failing that the line labelled "Running: ". */
module OsFingerprint {
  import opened Wrappers
  import opened Errors
  import opened Subprocess
  import opened Text

  const DetailsLabel := "OS details: "
  const RunningLabel := "Running: "

  /** `tag` occurs at `i` and nowhere before: where `re.search` finds it. */
  predicate FirstAt(s: string, i: int, tag: string) {
    StartsAt(s, i, tag) && forall j | 0 <= j < i :: !StartsAt(s, j, tag)
  }

  /** What `(.*?)(?:\n|$)` captures after position `a`, stripped: the rest of that line. */
  function RestOfLine(s: string, a: nat): string
    requires a <= |s|
  {
    Strip(s[a..LineEnd(s, a)])
  }

  /** `v` is the stripped rest of the line after the first occurrence of `tag`. */
  ghost predicate AfterFirst(s: string, tag: string, v: string) {
    exists i | 0 <= i <= |s| :: FirstAt(s, i, tag) && v == RestOfLine(s, i + |tag|)
  }

  /** `re.search(tag + r"(.*?)(?:\n|$)", s)`, the group stripped; `None` when there is no match,
      which happens exactly when the tag does not occur. */
  function SearchLabelled(s: string, tag: string): (r: Option<string>)
    ensures r.None? <==> !Contains(s, tag)
    ensures r.Some? ==> AfterFirst(s, tag, r.value)
  {
    IndexOfFindsContained(s, tag);
    match IndexOf(s, tag, 0)
    case None => None
    case Some(i) =>
      FoundIsFirst(s, tag, i);
      Some(RestOfLine(s, i + |tag|))
  }

  lemma FoundIsFirst(s: string, tag: string, i: nat)
    requires IndexOf(s, tag, 0) == Some(i)
    ensures i + |tag| <= |s| && AfterFirst(s, tag, RestOfLine(s, i + |tag|))
  {
    assert FirstAt(s, i, tag);
  }

  /** `_parse_nmap_output`: the OS details line wins wherever it is; the Running line is used only
      when there is no OS details line; with neither the result is `None`. A tag followed by
      nothing but spaces gives the empty string, not `None`. */
  function ParseOs(output: string): (r: Option<string>)
    ensures Contains(output, DetailsLabel) ==> r.Some? && AfterFirst(output, DetailsLabel, r.value)
    ensures !Contains(output, DetailsLabel) && Contains(output, RunningLabel) ==>
              r.Some? && AfterFirst(output, RunningLabel, r.value)
    ensures r.None? <==> !Contains(output, DetailsLabel) && !Contains(output, RunningLabel)
  {
    match SearchLabelled(output, DetailsLabel)
    case Some(v) => Some(v)
    case None => SearchLabelled(output, RunningLabel)
  }

  /** A single line of text without surrounding whitespace. */
  predicate OneTrimmedLine(v: string) {
    (forall k | 0 <= k < |v| :: v[k] != '\n') && (v == [] || (!IsSpace(v[0]) && !IsSpace(v[|v| - 1])))
  }

  /** The rest of a line never holds a newline and has no surrounding whitespace. */
  lemma RestOfLineIsOneLine(s: string, a: nat)
    requires a <= |s|
    ensures OneTrimmedLine(RestOfLine(s, a))
  {
    var line := s[a..LineEnd(s, a)];
    assert forall k | 0 <= k < |line| :: line[k] == s[a + k];
    StripKeepsAbsent(line, '\n');
  }

  /** Whatever the parser returns is a single line without surrounding whitespace. */
  lemma ParseOsIsOneLine(output: string)
    requires ParseOs(output).Some?
    ensures OneTrimmedLine(ParseOs(output).value)
  {
    var tag := if Contains(output, DetailsLabel) then DetailsLabel else RunningLabel;
    var i :| 0 <= i <= |output| && FirstAt(output, i, tag) && ParseOs(output).value == RestOfLine(output, i + |tag|);
    RestOfLineIsOneLine(output, i + |tag|);
  }

  /** The rest of the line after a tag is the text up to the newline, stripped. */
  lemma RestOfLabelledLine(pre: string, tag: string, line: string, post: string)
    requires forall k | 0 <= k < |line| :: line[k] != '\n'
    ensures var s := pre + tag + line + "\n" + post;
            RestOfLine(s, |pre| + |tag|) == Strip(line)
  {
    var s := pre + tag + line + "\n" + post;
    var a := |pre| + |tag|;
    assert forall k | a <= k < a + |line| :: NotNewline(s[k]) by {
      assert forall k | a <= k < a + |line| :: s[k] == line[k - a];
    }
    SpanEndIs(s, a, NotNewline, a + |line|);
    assert s[a..a + |line|] == line;
  }

  /** An output `…OS details: <text>\n…` whose first OS details label is this one gives the
      stripped text, whatever follows. */
  lemma DetailsLine(pre: string, line: string, post: string)
    requires forall j | 0 <= j < |pre| :: !StartsAt(pre + DetailsLabel + line + "\n" + post, j, DetailsLabel)
    requires forall k | 0 <= k < |line| :: line[k] != '\n'
    ensures ParseOs(pre + DetailsLabel + line + "\n" + post) == Some(Strip(line))
  {
    var s := pre + DetailsLabel + line + "\n" + post;
    assert s == pre + (DetailsLabel + line + "\n" + post);
    assert StartsAt(s, |pre|, DetailsLabel) by {
      assert s[|pre|..|pre| + |DetailsLabel|] == DetailsLabel;
    }
    assert FirstAt(s, |pre|, DetailsLabel);
    RestOfLabelledLine(pre, DetailsLabel, line, post);
    FirstAtUnique(s, DetailsLabel);
  }

  /** An output without any OS details label, with `…Running: <text>\n…` whose first Running label
      is this one, gives the stripped text, whatever follows. */
  lemma RunningLine(pre: string, line: string, post: string)
    requires forall j | 0 <= j < |pre| :: !StartsAt(pre + RunningLabel + line + "\n" + post, j, RunningLabel)
    requires forall k | 0 <= k < |line| :: line[k] != '\n'
    requires !Contains(pre + RunningLabel + line + "\n" + post, DetailsLabel)
    ensures ParseOs(pre + RunningLabel + line + "\n" + post) == Some(Strip(line))
  {
    var s := pre + RunningLabel + line + "\n" + post;
    assert s == pre + (RunningLabel + line + "\n" + post);
    assert StartsAt(s, |pre|, RunningLabel) by {
      assert s[|pre|..|pre| + |RunningLabel|] == RunningLabel;
    }
    assert FirstAt(s, |pre|, RunningLabel);
    RestOfLabelledLine(pre, RunningLabel, line, post);
    FirstAtUnique(s, RunningLabel);
  }

  /** There is only one first occurrence. */
  lemma FirstAtUnique(s: string, tag: string)
    ensures forall i, j | FirstAt(s, i, tag) && FirstAt(s, j, tag) :: i == j
  {
  }

  // ---------------------------------------------------------------------------------------------
  // OSFingerprint.fingerprint
  // ---------------------------------------------------------------------------------------------

  function FingerprintCommand(ip: string): Command {
    ["nmap", "-O", "-T1", ip, "-oG", "-"]
  }

  /** `OSFingerprint.fingerprint(ip)`: an invalid address raises before any command; otherwise one
      command, and a timeout or a non-zero exit gives `None`. Nothing else raises. */
  function Fingerprint(ip: string, isAddress: string -> bool, run: Runner): (r: Invoked<Option<string>>)
    ensures !isAddress(ip) ==> r == Invoked(Err(InvalidAddress(ip)), [])
    ensures isAddress(ip) ==> r.result.Ok? && r.commands == [FingerprintCommand(ip)]
    ensures isAddress(ip) ==> var o := run(FingerprintCommand(ip));
              (o.Timeout? || o.code != 0) ==> r.result == Ok(None)
    ensures isAddress(ip) ==> var o := run(FingerprintCommand(ip));
              o.Exit? && o.code == 0 ==> r.result == Ok(ParseOs(o.stdout))
  {
    if !isAddress(ip) then Invoked(Err(InvalidAddress(ip)), [])
    else
      var cmd := FingerprintCommand(ip);
      match run(cmd)
      case Timeout => Invoked(Ok(None), [cmd])
      case Exit(code, stdout) =>
        if code != 0 then Invoked(Ok(None), [cmd]) else Invoked(Ok(ParseOs(stdout)), [cmd])
  }
}
