/** The resume decision: whether the saved state names hosts still to scan, and which. Both read
    the state through `load_state`, whose errors they let through. */
module Resume {
  import opened Wrappers
  import opened Errors
  import opened Json

  const PendingKey := "pending_ips"

  /** `state.get(key)` on the document `json.load` returned; only a JSON object has `get`. */
  function Get(state: Json, key: string, default: Json): (r: Result<Json, Error>)
    ensures r.Err? <==> !state.Object?
    ensures r.Err? ==> r.error == AttributeError
    ensures state.Object? && key in state.fields ==> r == Ok(state.fields[key])
    ensures state.Object? && key !in state.fields ==> r == Ok(default)
  {
    if state.Object? then Ok(if key in state.fields then state.fields[key] else default)
    else Err(AttributeError)
  }

  /** `ResumeManager.should_resume()`, given what `load_state()` returned or raised:
      `bool(state and state.get("pending_ips"))`. No state, a falsy state, a missing key and a
      falsy value all give false; a truthy state that is not an object raises AttributeError. */
  function ShouldResume(loaded: Result<Option<Json>, Error>): (r: Result<bool, Error>)
    ensures loaded.Err? ==> r == Err(loaded.error)
    ensures loaded == Ok(None) ==> r == Ok(false)
    ensures loaded.Ok? && loaded.value.Some? ==> var state := loaded.value.value;
              (r.Err? <==> Truthy(state) && !state.Object?) &&
              (r == Ok(true) <==> state.Object? && PendingKey in state.fields && Truthy(state.fields[PendingKey]))
  {
    match loaded
    case Err(e) => Err(e)
    case Ok(None) => Ok(false)
    case Ok(Some(state)) =>
      if !Truthy(state) then Ok(false)
      else
        var pending :- Get(state, PendingKey, Null);
        Ok(Truthy(pending))
  }

  /** `ResumeManager.get_pending_ips()`: `state.get("pending_ips", []) if state else []`. The
      stored value comes back as it is, and the empty list when there is no state, the state is
      falsy or the key is missing. */
  function GetPendingIps(loaded: Result<Option<Json>, Error>): (r: Result<Json, Error>)
    ensures loaded.Err? ==> r == Err(loaded.error)
    ensures loaded == Ok(None) ==> r == Ok(Array([]))
    ensures loaded.Ok? && loaded.value.Some? ==> var state := loaded.value.value;
              (!Truthy(state) ==> r == Ok(Array([]))) &&
              (Truthy(state) && !state.Object? ==> r == Err(AttributeError)) &&
              (state.Object? && PendingKey in state.fields ==> r == Ok(state.fields[PendingKey])) &&
              (state.Object? && PendingKey !in state.fields ==> r == Ok(Array([])))
  {
    match loaded
    case Err(e) => Err(e)
    case Ok(None) => Ok(Array([]))
    case Ok(Some(state)) =>
      if Truthy(state) then Get(state, PendingKey, Array([])) else Ok(Array([]))
  }

  /** For the same stored state, a resume decision means there is something pending: the pending
      value is then the stored one, and it is truthy. */
  lemma ResumeMeansPending(loaded: Result<Option<Json>, Error>)
    requires ShouldResume(loaded) == Ok(true)
    ensures GetPendingIps(loaded).Ok? && Truthy(GetPendingIps(loaded).value)
    ensures GetPendingIps(loaded) == Ok(loaded.value.value.fields[PendingKey])
  {
  }

  /** A stored list of hosts is a reason to resume exactly when it is not empty, and is then the
      pending list, verbatim. */
  lemma StoredListResumes(fields: map<string, Json>, hosts: seq<Json>)
    requires PendingKey in fields && fields[PendingKey] == Array(hosts)
    ensures ShouldResume(Ok(Some(Object(fields)))) == Ok(hosts != [])
    ensures GetPendingIps(Ok(Some(Object(fields)))) == Ok(Array(hosts))
  {
    assert fields != map[];
  }

  /** The cleared checkpoint the workflow writes, `{"pending_ips": []}`, is no reason to resume. */
  lemma ClearedStateDoesNotResume()
    ensures ShouldResume(Ok(Some(Object(map[PendingKey := Array([])])))) == Ok(false)
    ensures GetPendingIps(Ok(Some(Object(map[PendingKey := Array([])])))) == Ok(Array([]))
  {
    StoredListResumes(map[PendingKey := Array([])], []);
  }
}
