/** The state store: a JSON document saved atomically (write a temporary file, then replace the
    target with it) and loaded back, over a file system seen as a map from path to contents. */
module State {
  import opened Wrappers
  import opened Errors
  import opened Json

  /** `INTERNAL_PATH_DEFAULT`: the path used when none is given. */
  const DefaultPath := "scan_state.json"

  /** The suffix of the temporary file written before the replace. */
  const TempSuffix := ".tmp"

  /** `path if path is not None else INTERNAL_PATH_DEFAULT`. */
  function Resolve(path: Option<string>): string {
    if path.Some? then path.value else DefaultPath
  }

  // ---------------------------------------------------------------------------------------------
  // Path.with_suffix
  // ---------------------------------------------------------------------------------------------

  /** `s.rfind(c)`: the last position of `c`, or -1. */
  function LastIndexOf(s: string, c: char): (r: int)
    ensures -1 <= r < |s|
    ensures r >= 0 ==> s[r] == c
    ensures forall k | r < k < |s| :: s[k] != c
  {
    if |s| == 0 then -1
    else if s[|s| - 1] == c then |s| - 1
    else LastIndexOf(s[..|s| - 1], c)
  }

  /** Where the final component (pathlib's `name`) starts: after the last slash. */
  function NameStart(p: string): (k: nat)
    ensures k <= |p|
    ensures forall j | k <= j < |p| :: p[j] != '/'
  {
    LastIndexOf(p, '/') + 1
  }

  /** Where pathlib's `suffix` starts: at the last dot of the name when that dot is neither the
      first nor the last character of the name, and at the end of the path when there is no
      suffix. */
  function SuffixStart(p: string): (k: nat)
    ensures NameStart(p) <= k <= |p|
    ensures k < |p| ==> NameStart(p) < k < |p| - 1 && p[k] == '.'
    ensures forall j | k < j < |p| :: p[j] != '.'
  {
    var n := NameStart(p);
    var i := LastIndexOf(p[n..], '.');
    assert forall j | n + i < j < |p| :: p[j] == p[n..][j - n];
    if 0 < i < |p| - n - 1 then n + i else |p|
  }

  /** `Path(p).with_suffix(suffix)`: the name's suffix replaced by `suffix`, or `suffix` appended
      when the name has none. A path with an empty name ("" or ".", or one ending in a slash)
      raises ValueError. */
  function WithSuffix(p: string, suffix: string): (r: Result<string, Error>)
    ensures r.Err? <==> p[NameStart(p)..] == "" || p[NameStart(p)..] == "."
    ensures r.Err? ==> r.error == EmptyPathName(p)
    ensures r.Ok? ==> NameStart(p) < |r.value| - |suffix| && r.value[..NameStart(p)] == p[..NameStart(p)]
    ensures r.Ok? ==> r.value[|r.value| - |suffix|..] == suffix
    ensures r.Ok? ==> r.value[..|r.value| - |suffix|] == p[..SuffixStart(p)]
  {
    var n := NameStart(p);
    if p[n..] == "" || p[n..] == "." then Err(EmptyPathName(p))
    else
      var k := SuffixStart(p);
      Ok(p[..k] + suffix)
  }

  /** The temporary file of the default path sits beside it: "scan_state.tmp". */
  lemma DefaultTempPath()
    ensures WithSuffix(DefaultPath, TempSuffix) == Ok("scan_state.tmp")
  {
    var p := DefaultPath;
    assert forall k | 0 <= k < |p| :: p[k] != '/';
    LastIndexOfIs(p, '/', -1);
    assert p[10] == '.' && forall k | 10 < k < |p| :: p[k] != '.';
    assert p[0..] == p;
    LastIndexOfIs(p, '.', 10);
    assert p[..10] + TempSuffix == "scan_state.tmp";
  }

  /** `rfind` finds the last occurrence. */
  lemma {:induction false} LastIndexOfIs(s: string, c: char, i: int)
    requires -1 <= i < |s| && (i >= 0 ==> s[i] == c)
    requires forall k | i < k < |s| :: s[k] != c
    ensures LastIndexOf(s, c) == i
  {
    if |s| > 0 && s[|s| - 1] != c {
      LastIndexOfIs(s[..|s| - 1], c, i);
    }
  }

  // ---------------------------------------------------------------------------------------------
  // StateManager.save_state and StateManager.load_state on the file map
  // ---------------------------------------------------------------------------------------------

  /** The outcome of a save: what it returns or raises, and the files afterwards. */
  datatype Saved = Saved(result: Result<(), Error>, files: map<string, string>)

  /** `save_state` to `p` of a document whose encoding is `content`, against the files `files`,
      where the paths in `failing` raise OSError when opened or replaced. The temporary file is
      written first; a failure to write it changes nothing; a failure to replace the target
      leaves the temporary file behind and the target as it was. Success leaves the content at
      the target and no temporary file. Nothing else is touched. */
  function SaveTo(files: map<string, string>, failing: set<string>, p: string, content: string): (s: Saved)
    ensures WithSuffix(p, TempSuffix).Err? ==> s == Saved(Err(EmptyPathName(p)), files)
    ensures WithSuffix(p, TempSuffix).Ok? ==> var temp := WithSuffix(p, TempSuffix).value;
              (s.result.Ok? <==> temp !in failing && p !in failing) &&
              (s.result.Err? ==> s.result.error == StateError) &&
              (s.result.Ok? ==> p in s.files && s.files[p] == content && (temp != p ==> temp !in s.files)) &&
              (s.result.Err? ==> (p in s.files <==> p in files) && (p in files ==> s.files[p] == files[p])) &&
              (temp in failing ==> s.files == files) &&
              (temp !in failing && p in failing ==> s.files == files[temp := content]) &&
              (forall q | q != p && q != temp :: (q in s.files <==> q in files) && (q in files ==> s.files[q] == files[q]))
  {
    match WithSuffix(p, TempSuffix)
    case Err(e) => Saved(Err(e), files)
    case Ok(temp) =>
      if temp in failing then Saved(Err(StateError), files)
      else
        var written := files[temp := content];
        if p in failing then Saved(Err(StateError), written)
        else Saved(Ok(()), (written - {temp})[p := written[temp]])
  }

  /** `load_state` of `p`: `None` exactly when there is no such file; an unreadable file raises
      StateError; a file that does not decode raises StateCorruptedError, itself a StateError;
      otherwise the decoded document. */
  function LoadFrom(files: map<string, string>, failing: set<string>, decode: string -> Option<Json>, p: string)
    : (r: Result<Option<Json>, Error>)
    ensures r == Ok(None) <==> p !in files
    ensures r.Err? ==> IsStateError(r.error)
    ensures r == Err(StateCorruptedError) <==> p in files && p !in failing && decode(files[p]).None?
    ensures p in files && p in failing ==> r == Err(StateError)
    ensures r.Ok? && r.value.Some? ==> p in files && decode(files[p]) == r.value
    ensures p in files && p !in failing && decode(files[p]).Some? ==> r == Ok(decode(files[p]))
  {
    if p !in files then Ok(None)
    else if p in failing then Err(StateError)
    else
      match decode(files[p])
      case None => Err(StateCorruptedError)
      case Some(j) => Ok(Some(j))
  }

  /** A successful save followed by a load of the same path gives back the saved document. */
  lemma SaveThenLoad(files: map<string, string>, failing: set<string>, codec: Codec, p: string, data: Json)
    requires RoundTrips(codec)
    requires SaveTo(files, failing, p, codec.encode(data)).result.Ok?
    ensures LoadFrom(SaveTo(files, failing, p, codec.encode(data)).files, failing, codec.decode, p) == Ok(Some(data))
  {
  }

  /** A failed save leaves what a load of the target returns as it was. */
  lemma FailedSaveKeepsLoad(files: map<string, string>, failing: set<string>, decode: string -> Option<Json>, p: string, content: string)
    requires SaveTo(files, failing, p, content).result.Err?
    ensures LoadFrom(SaveTo(files, failing, p, content).files, failing, decode, p) == LoadFrom(files, failing, decode, p)
  {
  }

  /** The state store as an object: the files, the paths that fail, and the codec. `saves`
      records every `save_state` call with the path it resolved and the document. */
  class StateManager {
    var files: map<string, string>
    const failing: set<string>
    const codec: Codec
    ghost var saves: seq<(string, Json)>

    constructor (initial: map<string, string>, failing: set<string>, codec: Codec)
      ensures files == initial && this.failing == failing && this.codec == codec && saves == []
    {
      files := initial;
      this.failing := failing;
      this.codec := codec;
      saves := [];
    }

    /** `StateManager.save_state(data, path)`: the temporary file is written, then moved over the
        target path. */
    method SaveState(data: Json, path: Option<string>) returns (r: Result<(), Error>)
      modifies this
      ensures var s := SaveTo(old(files), failing, Resolve(path), codec.encode(data));
              r == s.result && files == s.files
      ensures saves == old(saves) + [(Resolve(path), data)]
    {
      var p := Resolve(path);
      saves := saves + [(p, data)];
      var temp :- WithSuffix(p, TempSuffix);
      if temp in failing {
        return Err(StateError);
      }
      files := files[temp := codec.encode(data)];
      if p in failing {
        return Err(StateError);
      }
      var content := files[temp];
      files := (files - {temp})[p := content];
      r := Ok(());
    }

    /** `StateManager.load_state(path)`: the default path when none is given; `None` exactly when
        that file is missing. */
    function LoadState(path: Option<string>): (r: Result<Option<Json>, Error>)
      reads this
      ensures r == Ok(None) <==> Resolve(path) !in files
      ensures r.Ok? && r.value.Some? ==> Resolve(path) in files && codec.decode(files[Resolve(path)]) == r.value
      ensures r.Err? ==> IsStateError(r.error)
    {
      LoadFrom(files, failing, codec.decode, Resolve(path))
    }
  }
}
