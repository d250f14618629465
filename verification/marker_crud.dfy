/**
 * The marker collection as an in-memory store keyed by identifier, with the
 * five data-layer operations the routes build on.
 */
module MarkerCrud {
  import opened Wrappers
  import opened Models

  /**
   * The persisted markers. `nextId` stands for the database's supply of
   * fresh identifiers: every identifier handed out so far is below it.
   */
  datatype MarkerStore = MarkerStore(markers: map<Id, Marker>, nextId: Id)

  /** Each marker is stored under its own identifier, and that identifier was handed out. */
  predicate Valid(s: MarkerStore) {
    forall id :: id in s.markers ==> id < s.nextId && s.markers[id].id == id
  }

  /** The ownership check shared by delete, update and image update. */
  predicate Owns(s: MarkerStore, id: Id, email: Email) {
    id in s.markers && s.markers[id].userEmail == email
  }

  /** Writes `m` back over the stored document `id` (the document's `save`). */
  function Save(s: MarkerStore, id: Id, m: Marker): (r: MarkerStore)
    requires id in s.markers
    ensures r.markers.Keys == s.markers.Keys && r.nextId == s.nextId
    ensures r.markers[id] == m
    ensures forall k :: k in s.markers && k != id ==> r.markers[k] == s.markers[k]
    ensures Valid(s) && m.id == id ==> Valid(r)
  {
    MarkerStore(s.markers[id := m], s.nextId)
  }

  /**
   * Inserts one new marker built from the arguments under a fresh
   * identifier; `now` is the creation instant.
   */
  function CreateMarker(s: MarkerStore, userEmail: Email, locationName: string, latitude: real,
                        longitude: real, imageUrl: Option<string>, description: Option<string>,
                        now: Time): (r: (MarkerStore, Marker))
    ensures var (s', m) := r;
      && m.userEmail == userEmail && m.locationName == locationName
      && m.latitude == latitude && m.longitude == longitude
      && m.imageUrl == imageUrl && m.description == description && m.createdAt == now
    ensures var (s', m) := r;
      && s'.markers.Keys == s.markers.Keys + {m.id}
      && m.id in s'.markers && s'.markers[m.id] == m
    ensures var (s', m) := r;
      Valid(s) ==> (m.id !in s.markers && Valid(s')
                    && forall k :: k in s.markers ==> s'.markers[k] == s.markers[k])
  {
    var m := Marker(s.nextId, userEmail, locationName, latitude, longitude, imageUrl, description, now);
    (MarkerStore(s.markers[m.id := m], s.nextId + 1), m)
  }

  /**
   * The owner's markers among identifiers below `n`, in identifier order,
   * which is the order of insertion.
   */
  function {:induction false} CollectOwned(s: MarkerStore, email: Email, n: nat): (r: seq<Marker>)
    ensures forall i :: 0 <= i < |r| ==>
      && r[i].id < n && r[i].id in s.markers
      && s.markers[r[i].id] == r[i] && r[i].userEmail == email
    ensures forall i, j :: 0 <= i < j < |r| ==> r[i].id < r[j].id
    ensures Valid(s) ==> forall id: Id :: id < n && Owns(s, id, email) ==> s.markers[id] in r
  {
    if n == 0 then []
    else
      var id := n - 1;
      var prefix := CollectOwned(s, email, id);
      if Owns(s, id, email) && s.markers[id].id == id then prefix + [s.markers[id]] else prefix
  }

  /** All markers stored for `email`; the store is only read. */
  function GetUserMarkers(s: MarkerStore, email: Email): (r: seq<Marker>)
    ensures forall m :: m in r ==> m.userEmail == email && m.id in s.markers && s.markers[m.id] == m
    ensures Valid(s) ==> forall id: Id :: Owns(s, id, email) ==> s.markers[id] in r
    ensures forall i, j :: 0 <= i < j < |r| ==> r[i].id < r[j].id
  {
    CollectOwned(s, email, s.nextId)
  }

  /** A pure lookup: present exactly when the identifier is stored. */
  function GetMarkerById(s: MarkerStore, id: Id): (r: Option<Marker>)
    ensures r.Some? <==> id in s.markers
    ensures r.Some? ==> r.value == s.markers[id]
  {
    if id in s.markers then Some(s.markers[id]) else None
  }

  /**
   * Removes the marker when `email` owns it. A missing marker and a marker
   * of another user both give `false` and leave the store as it was.
   */
  function DeleteMarker(s: MarkerStore, id: Id, email: Email): (r: (bool, MarkerStore))
    ensures r.0 <==> Owns(s, id, email)
    ensures !r.0 ==> r.1 == s
    ensures r.0 ==> r.1.markers.Keys == s.markers.Keys - {id} && r.1.nextId == s.nextId
    ensures forall k :: k in s.markers && k != id ==> k in r.1.markers && r.1.markers[k] == s.markers[k]
    ensures Valid(s) ==> Valid(r.1)
  {
    match GetMarkerById(s, id)
    case None => (false, s)
    case Some(m) =>
      if m.userEmail != email then (false, s)
      else (true, MarkerStore(s.markers - {id}, s.nextId))
  }

  /**
   * Points the owner's marker at a new image. A missing marker and a
   * marker of another user both give `None` and leave the store as it was;
   * on success only the image field of that one marker changes.
   */
  function UpdateMarkerImage(s: MarkerStore, id: Id, email: Email, imageUrl: string): (r: (Option<Marker>, MarkerStore))
    ensures r.0.Some? <==> Owns(s, id, email)
    ensures r.0.None? ==> r.1 == s
    ensures r.0.Some? ==>
      var before, after := s.markers[id], r.0.value;
      && after.imageUrl == Some(imageUrl)
      && after.id == before.id && after.userEmail == before.userEmail
      && after.locationName == before.locationName
      && after.latitude == before.latitude && after.longitude == before.longitude
      && after.description == before.description && after.createdAt == before.createdAt
    ensures r.0.Some? ==>
      && r.1.markers.Keys == s.markers.Keys && r.1.nextId == s.nextId
      && r.1.markers[id] == r.0.value
    ensures forall k :: k in s.markers && k != id ==> k in r.1.markers && r.1.markers[k] == s.markers[k]
    ensures Valid(s) ==> Valid(r.1)
  {
    match GetMarkerById(s, id)
    case None => (None, s)
    case Some(m) =>
      if m.userEmail != email then (None, s)
      else
        var m' := m.(imageUrl := Some(imageUrl));
        (Some(m'), Save(s, id, m'))
  }

  /** Deleting a marker just created by its owner gives back the earlier markers. */
  lemma DeleteUndoesCreate(s: MarkerStore, email: Email, name: string, lat: real, lon: real,
                           image: Option<string>, desc: Option<string>, now: Time)
    requires Valid(s)
    ensures var (s', m) := CreateMarker(s, email, name, lat, lon, image, desc, now);
      DeleteMarker(s', m.id, email) == (true, MarkerStore(s.markers, s.nextId + 1))
  {
    var (s', m) := CreateMarker(s, email, name, lat, lon, image, desc, now);
    assert s'.markers - {m.id} == s.markers;
  }

  /** A created marker is found by its identifier and listed for its owner. */
  lemma CreatedMarkerIsVisible(s: MarkerStore, email: Email, name: string, lat: real, lon: real,
                               image: Option<string>, desc: Option<string>, now: Time)
    requires Valid(s)
    ensures var (s', m) := CreateMarker(s, email, name, lat, lon, image, desc, now);
      GetMarkerById(s', m.id) == Some(m) && m in GetUserMarkers(s', email)
  {
    var (s', m) := CreateMarker(s, email, name, lat, lon, image, desc, now);
    assert Owns(s', m.id, email);
  }

  /**
   * User `other` trying to delete a marker of `owner` changes nothing:
   * the marker is still listed among the owner's markers.
   */
  lemma ForeignDeleteKeepsMarker(s: MarkerStore, id: Id, owner: Email, other: Email)
    requires Valid(s) && Owns(s, id, owner) && other != owner
    ensures var (deleted, s') := DeleteMarker(s, id, other);
      !deleted && s.markers[id] in GetUserMarkers(s', owner)
  {
  }

  /** Setting the same image twice is the same as setting it once. */
  lemma UpdateMarkerImageIdempotent(s: MarkerStore, id: Id, email: Email, url: string)
    ensures var (r1, s1) := UpdateMarkerImage(s, id, email, url);
      UpdateMarkerImage(s1, id, email, url) == (r1, s1)
  {
    var (r1, s1) := UpdateMarkerImage(s, id, email, url);
    if r1.Some? {
      assert s1.markers[id := r1.value] == s1.markers;
    }
  }
}
