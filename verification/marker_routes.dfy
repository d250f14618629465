/**
 * The marker routes: each request is one step from a database state to a
 * reply and a new state. The geocoder, the image store and the ObjectId
 * parser are passed in as functions; the clock as the instant `now`.
 */
module MarkerRoutes {
  import opened Wrappers
  import opened Models
  import opened Schemas
  import MarkerCrud
  import VisitCrud

  /** The external collaborators a request may call. */
  datatype Services = Services(
    geocode: string -> Option<Coordinates>,
    uploadDataUri: string -> Option<string>,
    uploadFile: seq<bv8> -> Option<string>,
    parseId: string -> Option<Id>
  )

  /** Everything the routes read or write: markers, the visit log, registered users. */
  datatype Db = Db(markers: MarkerCrud.MarkerStore, visits: VisitCrud.VisitLog, users: map<Email, User>)

  /** A reply and the database state after the request. */
  datatype Reply<T> = Reply(outcome: Result<T, Status>, db: Db)

  /** The public view of another user's map. */
  datatype UserMap = UserMap(userEmail: Email, userName: string, markers: seq<Marker>)

  /** A stored marker obeys the bounds its create or update request was checked against. */
  predicate WellFormedMarker(m: Marker) {
    ValidLocationName(m.locationName) && ValidDescription(m.description)
  }

  /** Each registered user is found under their own email. */
  predicate UsersKeyedByEmail(users: map<Email, User>) {
    forall e :: e in users ==> users[e].email == e
  }

  predicate WellFormed(db: Db) {
    && MarkerCrud.Valid(db.markers)
    && VisitCrud.ValidLog(db.visits)
    && UsersKeyedByEmail(db.users)
    && forall id :: id in db.markers.markers ==> WellFormedMarker(db.markers.markers[id])
  }

  /** Every stored marker sits where the geocoder puts its location name. */
  predicate Geocoded(s: MarkerCrud.MarkerStore, geocode: string -> Option<Coordinates>) {
    forall id :: id in s.markers ==>
      geocode(s.markers[id].locationName) == Some(Coordinates(s.markers[id].latitude, s.markers[id].longitude))
  }

  /** A base64 image sent inline instead of a URL. */
  predicate IsDataUri(image: string) {
    "data:image" <= image
  }

  /** Swaps an inline image for the URL the image store returns; anything else passes through. */
  function ResolveImage(image: Option<string>, upload: string -> Option<string>): (r: Result<Option<string>, Status>)
    ensures !(image.Some? && IsDataUri(image.value)) ==> r == Ok(image)
    ensures image.Some? && IsDataUri(image.value) ==>
      && (r == Err(InternalServerError) <==> upload(image.value).None?)
      && (upload(image.value).Some? ==> r == Ok(upload(image.value)))
    ensures r.Err? ==> r.error == InternalServerError
  {
    if image.Some? && IsDataUri(image.value) then
      match upload(image.value)
      case None => Err(InternalServerError)
      case Some(url) => Ok(Some(url))
    else Ok(image)
  }

  /**
   * Creates a marker for the authenticated user. Its coordinates come from
   * the geocoder, never from the request; an inline image is uploaded
   * first. Nothing is stored unless every step succeeds.
   */
  function CreateMarker(db: Db, user: User, req: MarkerCreate, svc: Services, now: Time): (r: Reply<Marker>)
    ensures r.outcome.Err? ==> r.db == db
    ensures r.outcome == Err(UnprocessableEntity) <==> !ValidCreate(req)
    ensures r.outcome == Err(NotFound) <==> ValidCreate(req) && svc.geocode(req.locationName).None?
    ensures r.outcome == Err(InternalServerError) <==>
      && ValidCreate(req) && svc.geocode(req.locationName).Some?
      && req.imageUrl.Some? && IsDataUri(req.imageUrl.value)
      && svc.uploadDataUri(req.imageUrl.value).None?
    ensures r.outcome.Ok? <==>
      && ValidCreate(req) && svc.geocode(req.locationName).Some?
      && !(req.imageUrl.Some? && IsDataUri(req.imageUrl.value) && svc.uploadDataUri(req.imageUrl.value).None?)
    ensures r.outcome.Ok? ==> var m := r.outcome.value;
      && svc.geocode(req.locationName) == Some(Coordinates(m.latitude, m.longitude))
      && m.userEmail == user.email && m.locationName == req.locationName
      && m.description == req.description && m.createdAt == now
      && (if req.imageUrl.Some? && IsDataUri(req.imageUrl.value)
          then m.imageUrl == svc.uploadDataUri(req.imageUrl.value)
          else m.imageUrl == req.imageUrl)
    ensures r.outcome.Ok? ==> var m := r.outcome.value;
      && r.db.visits == db.visits && r.db.users == db.users
      && r.db.markers.markers.Keys == db.markers.markers.Keys + {m.id}
      && r.db.markers.markers[m.id] == m
      && (MarkerCrud.Valid(db.markers) ==>
            m.id !in db.markers.markers
            && forall k :: k in db.markers.markers ==> r.db.markers.markers[k] == db.markers.markers[k])
    ensures WellFormed(db) ==> WellFormed(r.db)
    ensures Geocoded(db.markers, svc.geocode) ==> Geocoded(r.db.markers, svc.geocode)
  {
    if !ValidCreate(req) then Reply(Err(UnprocessableEntity), db)
    else
      match svc.geocode(req.locationName)
      case None => Reply(Err(NotFound), db)
      case Some(c) =>
        match ResolveImage(req.imageUrl, svc.uploadDataUri)
        case Err(e) => Reply(Err(e), db)
        case Ok(image) =>
          var (store, m) := MarkerCrud.CreateMarker(db.markers, user.email, req.locationName,
                                                    c.latitude, c.longitude, image, req.description, now);
          Reply(Ok(m), db.(markers := store))
  }

  /** The authenticated user's own markers, in insertion order. */
  function GetMyMarkers(db: Db, user: User): (r: seq<Marker>)
    ensures forall m :: m in r ==>
      m.userEmail == user.email && m.id in db.markers.markers && db.markers.markers[m.id] == m
    ensures forall i, j :: 0 <= i < j < |r| ==> r[i].id < r[j].id
    ensures MarkerCrud.Valid(db.markers) ==>
      forall id: Id :: MarkerCrud.Owns(db.markers, id, user.email) ==> db.markers.markers[id] in r
  {
    MarkerCrud.GetUserMarkers(db.markers, user.email)
  }

  /**
   * Shows `email`'s map to anyone. A signed-in viewer other than the owner
   * leaves one visit in the log; an unknown `email` is 404 and logs nothing.
   */
  function GetUserMap(db: Db, viewer: Option<User>, email: Email, now: Time): (r: Reply<UserMap>)
    ensures r.outcome.Err? <==> email !in db.users
    ensures r.outcome.Err? ==> r.outcome.error == NotFound && r.db == db
    ensures r.db.markers == db.markers && r.db.users == db.users
    ensures r.outcome.Ok? && viewer.Some? && viewer.value.email != email ==>
      && |r.db.visits| == |db.visits| + 1
      && r.db.visits[..|db.visits|] == db.visits
      && var v := r.db.visits[|db.visits|];
         v.visitedUserEmail == email && v.visitorEmail == viewer.value.email
         && v.visitorOauthId == viewer.value.oauthId && v.visitedAt == now
    ensures (viewer.None? || viewer.value.email == email) ==> r.db.visits == db.visits
    ensures r.outcome.Ok? ==>
      && r.outcome.value.userName == db.users[email].name
      && (UsersKeyedByEmail(db.users) ==> r.outcome.value.userEmail == email)
      && (forall m :: m in r.outcome.value.markers ==>
            m.userEmail == email && m.id in db.markers.markers && db.markers.markers[m.id] == m)
      && (forall i, j :: 0 <= i < j < |r.outcome.value.markers| ==>
            r.outcome.value.markers[i].id < r.outcome.value.markers[j].id)
      && (MarkerCrud.Valid(db.markers) ==>
            forall id: Id :: MarkerCrud.Owns(db.markers, id, email) ==> db.markers.markers[id] in r.outcome.value.markers)
    ensures WellFormed(db) ==> WellFormed(r.db)
  {
    if email !in db.users then Reply(Err(NotFound), db)
    else
      var owner := db.users[email];
      var visits :=
        if viewer.Some? && viewer.value.email != email
        then VisitCrud.CreateVisit(db.visits, email, viewer.value.email, viewer.value.oauthId, now).0
        else db.visits;
      var markers := MarkerCrud.GetUserMarkers(db.markers, email);
      Reply(Ok(UserMap(owner.email, owner.name, markers)), db.(visits := visits))
  }

  /**
   * Deletes the caller's marker. A malformed id is 400; a missing marker
   * and another user's marker are both 404, and neither changes anything.
   */
  function DeleteMarker(db: Db, user: User, rawId: string, svc: Services): (r: Reply<()>)
    ensures r.outcome == Err(BadRequest) <==> svc.parseId(rawId).None?
    ensures r.outcome.Ok? <==> svc.parseId(rawId).Some? && MarkerCrud.Owns(db.markers, svc.parseId(rawId).value, user.email)
    ensures r.outcome.Err? ==> r.db == db
    ensures r.outcome.Err? && svc.parseId(rawId).Some? ==> r.outcome.error == NotFound
    ensures r.outcome.Ok? ==> var id := svc.parseId(rawId).value;
      && r.db.visits == db.visits && r.db.users == db.users
      && r.db.markers.markers.Keys == db.markers.markers.Keys - {id}
      && forall k :: k in r.db.markers.markers ==> r.db.markers.markers[k] == db.markers.markers[k]
    ensures WellFormed(db) ==> WellFormed(r.db)
    ensures Geocoded(db.markers, svc.geocode) ==> Geocoded(r.db.markers, svc.geocode)
  {
    match svc.parseId(rawId)
    case None => Reply(Err(BadRequest), db)
    case Some(id) =>
      var (deleted, store) := MarkerCrud.DeleteMarker(db.markers, id, user.email);
      if !deleted then Reply(Err(NotFound), db)
      else Reply(Ok(()), db.(markers := store))
  }

  /** The marker with only the fields present in `req` replaced; `coords` are the re-geocoded ones. */
  function ApplyUpdate(m: Marker, req: MarkerUpdate, coords: Coordinates): (r: Marker)
    ensures r.id == m.id && r.userEmail == m.userEmail && r.imageUrl == m.imageUrl && r.createdAt == m.createdAt
    ensures r.locationName == (if req.locationName.Set? then req.locationName.value else m.locationName)
    ensures Coordinates(r.latitude, r.longitude)
         == (if req.locationName.Set? then coords else Coordinates(m.latitude, m.longitude))
    ensures r.description == (if req.description.Set? then req.description.value else m.description)
  {
    var located :=
      if req.locationName.Set?
      then m.(latitude := coords.latitude, longitude := coords.longitude, locationName := req.locationName.value)
      else m;
    if req.description.Set? then located.(description := req.description.value) else located
  }

  /** Sending the same partial update twice leaves the marker as sending it once does. */
  lemma ApplyUpdateIdempotent(m: Marker, req: MarkerUpdate, coords: Coordinates)
    ensures ApplyUpdate(ApplyUpdate(m, req, coords), req, coords) == ApplyUpdate(m, req, coords)
  {
  }

  /**
   * Partially updates the caller's marker. A new location name is
   * re-geocoded, and a failed geocode is 404 before anything is saved;
   * fields absent from the request keep their values.
   */
  function UpdateMarker(db: Db, user: User, rawId: string, req: MarkerUpdate, svc: Services): (r: Reply<Marker>)
    ensures r.outcome.Err? ==> r.db == db
    ensures r.outcome == Err(UnprocessableEntity) <==> !ValidUpdate(req)
    ensures r.outcome == Err(BadRequest) <==> ValidUpdate(req) && svc.parseId(rawId).None?
    ensures r.outcome == Err(NotFound) <==>
      && ValidUpdate(req) && svc.parseId(rawId).Some?
      && (!MarkerCrud.Owns(db.markers, svc.parseId(rawId).value, user.email)
          || (req.locationName.Set? && svc.geocode(req.locationName.value).None?))
    ensures r.outcome.Ok? <==>
      && ValidUpdate(req) && svc.parseId(rawId).Some?
      && MarkerCrud.Owns(db.markers, svc.parseId(rawId).value, user.email)
      && (req.locationName.Set? ==> svc.geocode(req.locationName.value).Some?)
    ensures r.outcome.Ok? ==>
      && svc.parseId(rawId).Some?
      && var id := svc.parseId(rawId).value;
         var before, after := db.markers.markers[id], r.outcome.value;
      && MarkerCrud.Owns(db.markers, id, user.email)
      && after.id == before.id && after.userEmail == before.userEmail
      && after.imageUrl == before.imageUrl && after.createdAt == before.createdAt
      && (if req.locationName.Set?
          then after.locationName == req.locationName.value
               && svc.geocode(after.locationName) == Some(Coordinates(after.latitude, after.longitude))
          else after.locationName == before.locationName
               && after.latitude == before.latitude && after.longitude == before.longitude)
      && after.description == (if req.description.Set? then req.description.value else before.description)
      && r.db.visits == db.visits && r.db.users == db.users
      && r.db.markers.nextId == db.markers.nextId
      && r.db.markers.markers.Keys == db.markers.markers.Keys
      && r.db.markers.markers[id] == after
      && forall k :: k in db.markers.markers && k != id ==> r.db.markers.markers[k] == db.markers.markers[k]
    ensures WellFormed(db) ==> WellFormed(r.db)
    ensures Geocoded(db.markers, svc.geocode) ==> Geocoded(r.db.markers, svc.geocode)
  {
    if !ValidUpdate(req) then Reply(Err(UnprocessableEntity), db)
    else
      match svc.parseId(rawId)
      case None => Reply(Err(BadRequest), db)
      case Some(id) =>
        match MarkerCrud.GetMarkerById(db.markers, id)
        case None => Reply(Err(NotFound), db)
        case Some(m) =>
          if m.userEmail != user.email then Reply(Err(NotFound), db)
          else
            var coords :=
              if req.locationName.Set? then svc.geocode(req.locationName.value)
              else Some(Coordinates(m.latitude, m.longitude));
            match coords
            case None => Reply(Err(NotFound), db)
            case Some(c) =>
              var m' := ApplyUpdate(m, req, c);
              Reply(Ok(m'), db.(markers := MarkerCrud.Save(db.markers, id, m')))
  }

  /**
   * Replaces the image of the caller's marker with an uploaded file. A
   * request without the file part (`None`) is refused with 422 before the
   * handler runs. The upload happens before the ownership check, so a
   * failed upload is 500 even for a marker the caller does not own; either
   * way nothing changes.
   */
  function UpdateMarkerImage(db: Db, user: User, rawId: string, file: Option<seq<bv8>>, svc: Services): (r: Reply<Marker>)
    ensures r.outcome.Err? ==> r.db == db
    ensures r.outcome == Err(UnprocessableEntity) <==> file.None?
    ensures r.outcome == Err(BadRequest) <==> file.Some? && svc.parseId(rawId).None?
    ensures r.outcome == Err(InternalServerError) <==>
      file.Some? && svc.parseId(rawId).Some? && svc.uploadFile(file.value).None?
    ensures r.outcome == Err(NotFound) <==>
      && file.Some? && svc.parseId(rawId).Some? && svc.uploadFile(file.value).Some?
      && !MarkerCrud.Owns(db.markers, svc.parseId(rawId).value, user.email)
    ensures r.outcome.Ok? <==>
      && file.Some? && svc.parseId(rawId).Some? && svc.uploadFile(file.value).Some?
      && MarkerCrud.Owns(db.markers, svc.parseId(rawId).value, user.email)
    ensures r.outcome.Ok? ==>
      && file.Some? && svc.parseId(rawId).Some?
      && var id := svc.parseId(rawId).value;
      && r.outcome.value == db.markers.markers[id].(imageUrl := svc.uploadFile(file.value))
      && r.db.visits == db.visits && r.db.users == db.users
      && r.db.markers.nextId == db.markers.nextId
      && r.db.markers.markers.Keys == db.markers.markers.Keys
      && r.db.markers.markers[id] == r.outcome.value
      && forall k :: k in db.markers.markers && k != id ==> r.db.markers.markers[k] == db.markers.markers[k]
    ensures WellFormed(db) ==> WellFormed(r.db)
    ensures Geocoded(db.markers, svc.geocode) ==> Geocoded(r.db.markers, svc.geocode)
  {
    if file.None? then Reply(Err(UnprocessableEntity), db)
    else
      match svc.parseId(rawId)
      case None => Reply(Err(BadRequest), db)
      case Some(id) =>
        match svc.uploadFile(file.value)
        case None => Reply(Err(InternalServerError), db)
        case Some(url) =>
          var (updated, store) := MarkerCrud.UpdateMarkerImage(db.markers, id, user.email, url);
          match updated
          case None => Reply(Err(NotFound), db)
          case Some(m) => Reply(Ok(m), db.(markers := store))
  }

  /**
   * A caller cannot tell a missing marker from another user's marker:
   * delete, update and image update reply 404 in both cases and change
   * nothing.
   */
  lemma MissingAndForeignLookAlike(missing: Db, foreign: Db, user: User, rawId: string,
                                   req: MarkerUpdate, file: seq<bv8>, svc: Services)
    requires svc.parseId(rawId).Some? && ValidUpdate(req) && svc.uploadFile(file).Some?
    requires svc.parseId(rawId).value !in missing.markers.markers
    requires var id := svc.parseId(rawId).value;
      id in foreign.markers.markers && foreign.markers.markers[id].userEmail != user.email
    ensures DeleteMarker(missing, user, rawId, svc) == Reply(Err(NotFound), missing)
    ensures DeleteMarker(foreign, user, rawId, svc) == Reply(Err(NotFound), foreign)
    ensures UpdateMarker(missing, user, rawId, req, svc) == Reply(Err(NotFound), missing)
    ensures UpdateMarker(foreign, user, rawId, req, svc) == Reply(Err(NotFound), foreign)
    ensures UpdateMarkerImage(missing, user, rawId, Some(file), svc) == Reply(Err(NotFound), missing)
    ensures UpdateMarkerImage(foreign, user, rawId, Some(file), svc) == Reply(Err(NotFound), foreign)
  {
  }
}
