/**
 * The browser-side marker store: a cached list of the user's markers and
 * the map of the user being visited, with loading and error flags. Each
 * action is one step; the reply of the backend call it makes is a
 * parameter (`Ok` for a resolved call, `Err(message)` for a thrown error).
 */
module MarkerCache {
  import opened Wrappers

  /** A marker as the browser receives it (identifiers and dates are strings). */
  datatype ClientMarker = ClientMarker(
    id: string,
    userEmail: string,
    locationName: string,
    latitude: real,
    longitude: real,
    imageUrl: Option<string>,
    description: Option<string>,
    createdAt: string
  )

  datatype UserMapView = UserMapView(userEmail: string, userName: string, markers: seq<ClientMarker>)

  datatype CacheState = CacheState(
    myMarkers: seq<ClientMarker>,
    visitedUserMap: Option<UserMapView>,
    loading: bool,
    error: Option<string>,
    lastFetch: int
  )

  /** How long a loaded list is reused, in milliseconds: five minutes. */
  const CacheDuration: int := 5 * 60 * 1000

  function Initial(): CacheState {
    CacheState([], None, false, None, 0)
  }

  /** The text each action records when its backend call fails without a message of its own. */
  const LoadFallback: string := "Error al cargar marcadores"
  const CreateFallback: string := "Error al crear marcador"
  const DeleteFallback: string := "Error al eliminar marcador"
  const UpdateImageFallback: string := "Error al actualizar imagen"
  const LoadUserMapFallback: string := "Error al cargar mapa del usuario"

  /** The message shown for a failure: the error's own text, or `fallback` when it has none. */
  function ErrorText(message: string, fallback: string): (r: string)
    ensures fallback != "" ==> r != ""
    ensures message != "" ==> r == message
    ensures message == "" ==> r == fallback
  {
    if message == "" then fallback else message
  }

  /** A non-empty list fetched less than five minutes ago is reused unless `force` is set. */
  predicate CacheIsFresh(st: CacheState, force: bool, now: int) {
    !force && |st.myMarkers| > 0 && now - st.lastFetch < CacheDuration
  }

  /**
   * Loads the user's markers at instant `now`. A fresh cache is kept as is
   * and no request is made; otherwise a reply replaces the list and stamps
   * it, and a failure empties it and records the error.
   */
  function LoadMyMarkers(st: CacheState, force: bool, now: int, reply: Result<seq<ClientMarker>, string>): (r: CacheState)
    ensures CacheIsFresh(st, force, now) ==> r == st
    ensures !CacheIsFresh(st, force, now) ==> !r.loading && r.visitedUserMap == st.visitedUserMap
    ensures !CacheIsFresh(st, force, now) && reply.Ok? ==>
      r.myMarkers == reply.value && r.lastFetch == now && r.error.None?
    ensures !CacheIsFresh(st, force, now) && reply.Err? ==>
      r.myMarkers == [] && r.lastFetch == st.lastFetch && r.error == Some(ErrorText(reply.error, LoadFallback))
  {
    if CacheIsFresh(st, force, now) then st
    else
      match reply
      case Ok(markers) => st.(myMarkers := markers, lastFetch := now, loading := false, error := None)
      case Err(message) =>
        st.(myMarkers := [], loading := false, error := Some(ErrorText(message, LoadFallback)))
  }

  /**
   * Adds a created marker at the end of the list. On failure the list is
   * kept, the error recorded, and the failure handed back to the caller.
   */
  function CreateMarker(st: CacheState, reply: Result<ClientMarker, string>): (r: (CacheState, Result<ClientMarker, string>))
    ensures r.1 == reply
    ensures !r.0.loading && r.0.lastFetch == st.lastFetch && r.0.visitedUserMap == st.visitedUserMap
    ensures reply.Ok? ==>
      && |r.0.myMarkers| == |st.myMarkers| + 1
      && r.0.myMarkers[..|st.myMarkers|] == st.myMarkers && r.0.myMarkers[|st.myMarkers|] == reply.value
      && r.0.error.None?
    ensures reply.Err? ==> r.0.myMarkers == st.myMarkers && r.0.error == Some(ErrorText(reply.error, CreateFallback))
  {
    match reply
    case Ok(m) => (st.(myMarkers := st.myMarkers + [m], loading := false, error := None), reply)
    case Err(message) =>
      (st.(loading := false, error := Some(ErrorText(message, CreateFallback))), reply)
  }

  /** The list without any marker carrying `id`, the others kept in order. */
  function {:induction false} WithoutId(s: seq<ClientMarker>, id: string): (r: seq<ClientMarker>)
    ensures forall m :: m in r ==> m.id != id
    ensures forall m :: multiset(r)[m] == if m.id == id then 0 else multiset(s)[m]
    ensures (forall i :: 0 <= i < |s| ==> s[i].id != id) ==> r == s
  {
    if s == [] then []
    else
      assert s == [s[0]] + s[1..];
      var rest := WithoutId(s[1..], id);
      if s[0].id == id then rest else [s[0]] + rest
  }

  /** Removing an identifier a second time changes nothing. */
  lemma WithoutIdIdempotent(s: seq<ClientMarker>, id: string)
    ensures WithoutId(WithoutId(s, id), id) == WithoutId(s, id)
  {
    var r := WithoutId(s, id);
    assert forall i :: 0 <= i < |r| ==> r[i].id != id by {
      forall i | 0 <= i < |r| ensures r[i].id != id { assert r[i] in r; }
    }
  }

  /** Removing an identifier from a list with one more marker at the end. */
  lemma {:induction false} WithoutIdAppend(s: seq<ClientMarker>, m: ClientMarker, id: string)
    ensures WithoutId(s + [m], id) == WithoutId(s, id) + (if m.id == id then [] else [m])
  {
    if s == [] {
      assert [] + [m] == [m];
      assert [m][1..] == [];
    } else {
      assert (s + [m])[0] == s[0];
      assert (s + [m])[1..] == s[1..] + [m];
      WithoutIdAppend(s[1..], m, id);
    }
  }

  /** Drops the deleted marker from the list once the backend confirms the delete. */
  function DeleteMarker(st: CacheState, id: string, reply: Result<(), string>): (r: (CacheState, Result<(), string>))
    ensures r.1 == reply
    ensures !r.0.loading && r.0.lastFetch == st.lastFetch && r.0.visitedUserMap == st.visitedUserMap
    ensures reply.Ok? ==> r.0.myMarkers == WithoutId(st.myMarkers, id) && r.0.error.None?
    ensures reply.Err? ==> r.0.myMarkers == st.myMarkers && r.0.error == Some(ErrorText(reply.error, DeleteFallback))
  {
    match reply
    case Ok(_) => (st.(myMarkers := WithoutId(st.myMarkers, id), loading := false, error := None), reply)
    case Err(message) =>
      (st.(loading := false, error := Some(ErrorText(message, DeleteFallback))), reply)
  }

  /**
   * Deleting a marker right after creating it gives back the earlier list,
   * provided no earlier marker shared its identifier.
   */
  lemma DeleteUndoesCreate(st: CacheState, m: ClientMarker)
    requires forall i :: 0 <= i < |st.myMarkers| ==> st.myMarkers[i].id != m.id
    ensures DeleteMarker(CreateMarker(st, Ok(m)).0, m.id, Ok(())).0.myMarkers == st.myMarkers
  {
    WithoutIdAppend(st.myMarkers, m, m.id);
  }

  /** The position of the first marker carrying `id`, or -1 when there is none. */
  function {:induction false} FindIndex(s: seq<ClientMarker>, id: string): (r: int)
    ensures -1 <= r < |s|
    ensures r == -1 <==> forall i :: 0 <= i < |s| ==> s[i].id != id
    ensures r >= 0 ==> s[r].id == id && forall i :: 0 <= i < r ==> s[i].id != id
  {
    if s == [] then -1
    else if s[0].id == id then 0
    else
      var k := FindIndex(s[1..], id);
      if k == -1 then -1 else k + 1
  }

  /** The list with its first marker carrying `id` replaced by `m`, when there is one. */
  function ReplaceFirst(s: seq<ClientMarker>, id: string, m: ClientMarker): (r: seq<ClientMarker>)
    ensures |r| == |s|
    ensures var k := FindIndex(s, id);
      forall i :: 0 <= i < |s| ==> r[i] == if i == k then m else s[i]
    ensures (forall i :: 0 <= i < |s| ==> s[i].id != id) ==> r == s
  {
    var k := FindIndex(s, id);
    if k == -1 then s else s[k := m]
  }

  /** Puts the marker the backend returns in place of the old one, if the list holds it. */
  function UpdateMarkerImage(st: CacheState, id: string, reply: Result<ClientMarker, string>): (r: (CacheState, Result<(), string>))
    ensures r.1.Ok? <==> reply.Ok?
    ensures !r.0.loading && r.0.lastFetch == st.lastFetch && r.0.visitedUserMap == st.visitedUserMap
    ensures |r.0.myMarkers| == |st.myMarkers|
    ensures reply.Ok? ==>
      && r.0.error.None?
      && var k := FindIndex(st.myMarkers, id);
         forall i :: 0 <= i < |st.myMarkers| ==> r.0.myMarkers[i] == if i == k then reply.value else st.myMarkers[i]
    ensures reply.Err? ==>
      && r.0.myMarkers == st.myMarkers && r.0.error == Some(ErrorText(reply.error, UpdateImageFallback))
      && r.1 == Err(reply.error)
  {
    match reply
    case Ok(m) => (st.(myMarkers := ReplaceFirst(st.myMarkers, id, m), loading := false, error := None), Ok(()))
    case Err(message) =>
      (st.(loading := false, error := Some(ErrorText(message, UpdateImageFallback))), Err(message))
  }

  /** Shows another user's map; a failure clears it and is handed back. */
  function LoadUserMap(st: CacheState, reply: Result<UserMapView, string>): (r: (CacheState, Result<(), string>))
    ensures r.1.Ok? <==> reply.Ok?
    ensures !r.0.loading && r.0.myMarkers == st.myMarkers && r.0.lastFetch == st.lastFetch
    ensures reply.Ok? ==> r.0.visitedUserMap == Some(reply.value) && r.0.error.None?
    ensures reply.Err? ==>
      && r.0.visitedUserMap.None? && r.0.error == Some(ErrorText(reply.error, LoadUserMapFallback))
      && r.1 == Err(reply.error)
  {
    match reply
    case Ok(view) => (st.(visitedUserMap := Some(view), loading := false, error := None), Ok(()))
    case Err(message) =>
      (st.(visitedUserMap := None, loading := false,
           error := Some(ErrorText(message, LoadUserMapFallback))), Err(message))
  }

  /** Forgets both cached lists, so that the next load always fetches. */
  function ClearCache(st: CacheState): (r: CacheState)
    ensures r.myMarkers == [] && r.visitedUserMap.None? && r.lastFetch == 0
    ensures r == Initial().(loading := st.loading, error := st.error)
    ensures r.loading == st.loading && r.error == st.error
    ensures forall force: bool, now: int :: !CacheIsFresh(r, force, now)
  {
    st.(myMarkers := [], visitedUserMap := None, lastFetch := 0)
  }

  function ClearVisitedMap(st: CacheState): (r: CacheState)
    ensures r.visitedUserMap.None?
    ensures r.myMarkers == st.myMarkers && r.lastFetch == st.lastFetch
    ensures r.loading == st.loading && r.error == st.error
  {
    st.(visitedUserMap := None)
  }

  /**
   * A successful load of a non-empty list is reused, without a request,
   * by every unforced load in the next five minutes.
   */
  lemma FreshLoadIsReused(st: CacheState, force: bool, now: int, markers: seq<ClientMarker>,
                          later: int, reply: Result<seq<ClientMarker>, string>)
    requires !CacheIsFresh(st, force, now) && |markers| > 0
    requires now <= later < now + CacheDuration
    ensures var loaded := LoadMyMarkers(st, force, now, Ok(markers));
      LoadMyMarkers(loaded, false, later, reply) == loaded
  {
  }
}
