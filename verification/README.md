# MiMapa core, modelled in Dafny

MiMapa is a personal-map web app. Signed-in users put geocoded markers on
their own map, each with an optional image and description. They can look at
other users' maps read-only, and each look is logged as a visit. This
project models the rules of that app that can be stated exactly:

- **Marker store** (`MarkerCrud`). The markers are a `map<Id, Marker>`.
  Create, list-by-owner, lookup, owner-only delete and owner-only image
  update are pure functions over it.
- **Marker routes** (`MarkerRoutes`). These are the request handlers for
  create, my-markers, another user's map, delete, partial update and image
  update. Each one is a step from a database state to a reply and a new
  state. The geocoder, the image store and the ObjectId parser are function
  parameters (`Services`). The clock is the instant `now`.
- **Visit log** (`VisitCrud`, `VisitRoutes`). Visits are an append-only
  `seq<Visit>`. The listing filters by the visited user, sorts newest first
  and cuts at a limit (50 by default).
- **Request bounds** (`Schemas`). These are the field lengths the framework
  checks before a handler runs. A bad body gives 422.
- **Browser state** (`MarkerCache`, `AuthService`, `RouteGuard`). These are
  the cached marker list, the token holder, and the navigation guard. Each
  backend reply they depend on is a parameter.

Invariants the routes preserve:
- `MarkerRoutes.WellFormed`: every marker sits under its own id, every
  stored field is within its request bounds, and every user sits under their
  own email.
- `MarkerRoutes.Geocoded`: every stored marker's coordinates are what the
  geocoder gives for its location name.

Notable behaviour of the code, which the model keeps:
- The image update uploads before it checks ownership. A failed upload is
  therefore a 500 even for a marker the caller does not own.
- A missing file part in the image update is refused with 422 before the
  handler runs.
- Registering a visit reads the visited address from the query string, and a
  request without it is refused with 422. The browser's visit service sends the
  address in a JSON body instead (frontend/src/services/visit.service.ts:33).
- The self-visit check of the registration compares the address as written,
  before the visit document checks it. A string that is not an address is
  then refused with 500 and nothing is stored. A valid address is stored in
  normal form (see "## Findings").
- A failure to record a visit while a map is read is not caught by the code.
  Here every store write succeeds.
- The visit listing is newest first but not strictly ordered. Visits with
  equal timestamps may sit side by side.

## Model

| member | source | states |
|---|---|---|
| MarkerCrud.CreateMarker | backend/app/crud/marker_crud.py:13-31 | The new marker carries exactly the given email, name, coordinates, image, description and creation instant. It is stored under a fresh id, and every earlier marker is unchanged. |
| MarkerCrud.Save | backend/app/routers/markers.py:208 | Saving replaces only the one document; the key set and every other marker stay the same. |
| MarkerCrud.CollectOwned | backend/app/crud/marker_crud.py:36 | Among ids below n, it returns the stored markers of one owner, each exactly as stored and in increasing id order. |
| MarkerCrud.GetUserMarkers | backend/app/crud/marker_crud.py:34-37 | Returns exactly the stored markers whose owner is the given email (sound and complete), in insertion order. |
| MarkerCrud.GetMarkerById | backend/app/crud/marker_crud.py:40-43 | Finds a marker exactly when the id is stored, returns the stored document, and cannot change the store. |
| MarkerCrud.DeleteMarker | backend/app/crud/marker_crud.py:46-56 | Returns true exactly when the caller owns the marker, and then removes only that id. A missing or foreign marker gives false with the store unchanged. |
| MarkerCrud.UpdateMarkerImage | backend/app/crud/marker_crud.py:59-74 | Succeeds exactly for the owner and changes only that marker's image. Id, owner, place, coordinates, description and creation time are kept. Otherwise it gives None with the store unchanged. |
| MarkerCrud.DeleteUndoesCreate | backend/app/crud/marker_crud.py:13-56 | The owner deleting a marker they just created gets true back, and the earlier markers are restored. |
| MarkerCrud.CreatedMarkerIsVisible | backend/app/crud/marker_crud.py:22-43 | A created marker is found by its id and listed among its owner's markers. |
| MarkerCrud.ForeignDeleteKeepsMarker | backend/app/crud/marker_crud.py:51-53 | Another user deleting someone's marker gets false, and the marker stays in its owner's list. |
| MarkerCrud.UpdateMarkerImageIdempotent | backend/app/crud/marker_crud.py:68-74 | Setting the same image twice has the same effect as setting it once. |
| VisitCrud.CreateVisit | backend/app/crud/visit_crud.py:12-24 | Appends exactly one visit with the given, already checked, visited address, visitor address, OAuth id and instant. Earlier visits are unchanged and the new visit's id is fresh. |
| VisitCrud.VisitsTo | backend/app/crud/visit_crud.py:32-33 | Returns only visits to the given user, each drawn from the log. |
| VisitCrud.VisitsToCounts | backend/app/crud/visit_crud.py:32-33 | Filtering keeps every visit to the given user as often as it occurs in the log, and no other visit. |
| VisitCrud.InsertNewestFirst | backend/app/crud/visit_crud.py:34 | Inserting into a newest-first sequence keeps it newest-first and adds exactly the one visit. |
| VisitCrud.SortNewestFirst | backend/app/crud/visit_crud.py:34 | The descending sort on the visit time gives a newest-first permutation of its input. |
| VisitCrud.Limit | backend/app/crud/visit_crud.py:34 | The database limit keeps a prefix of min(length, limit) elements; a limit of zero keeps everything. |
| VisitCrud.GetUserVisits | backend/app/crud/visit_crud.py:27-35 | Returns only visits to the user, drawn from the log and newest first. It returns at most `limit` of them, and all of them when they fit. |
| VisitCrud.GetUserVisitsKeepsMostRecent | backend/app/crud/visit_crud.py:32-34 | No matching visit that the listing leaves out is newer than one it returns. |
| VisitCrud.VisitsToAppend | backend/app/crud/visit_crud.py:18-33 | A visit appended to the log shows up at the end of the visited user's filtered visits, and only there. |
| VisitCrud.RecordedVisitIsReceived | backend/app/crud/visit_crud.py:18-34 | Recording a visit adds exactly that visit to the visited user's received visits and leaves every other user's unchanged. |
| VisitCrud.NewestVisitListedFirst | backend/app/crud/visit_crud.py:18-34 | A visit stamped later than every earlier one heads the listing, whatever the limit. |
| Schemas.UpdateBoundsMatchCreate | backend/app/schemas/marker.py:5-14 | An update that sets both fields obeys the same bounds as a create request, and the image is never constrained. |
| Schemas.LocationNameBounds | backend/app/schemas/marker.py:6 | A location name is accepted exactly when it has 1 to 200 characters; the empty name is refused. |
| MarkerRoutes.ResolveImage | backend/app/routers/markers.py:68-79 | An image that is not an inline data:image comes back unchanged. A data:image comes back as the uploaded URL, and it is a 500 exactly when the upload fails. |
| MarkerRoutes.ApplyUpdate | backend/app/routers/markers.py:191-206 | Id, owner, image and creation time never change. A field the request sets takes the new value, and a new location name brings the new coordinates. A field left unset keeps its value. |
| MarkerRoutes.ApplyUpdateIdempotent | backend/app/routers/markers.py:191-206 | Applying the same partial update twice gives the same marker as applying it once. |
| MarkerRoutes.CreateMarker | backend/app/routers/markers.py:48-94 | 422 exactly for an invalid body. 404 exactly when geocoding fails. 500 exactly when an inline data:image fails to upload. Success exactly when none of these happens. On success the coordinates are the geocoder's and the image is the uploaded URL for a data:image, otherwise unchanged. Every error leaves the database untouched; success adds one marker. Both invariants are preserved. |
| MarkerRoutes.GetMyMarkers | backend/app/routers/markers.py:97-104 | Returns exactly the caller's own markers, each equal to the stored document, in insertion order. |
| MarkerRoutes.GetUserMap | backend/app/routers/markers.py:107-142 | An unknown user gives 404 and logs nothing. A visit is appended exactly when a signed-in viewer other than the owner looks, and it carries the viewer's email and OAuth id. The markers returned are exactly the owner's stored documents, in insertion order, and the reply names the requested user. |
| MarkerRoutes.DeleteMarker | backend/app/routers/markers.py:145-166 | 400 exactly for an unparsable id. Success exactly for the owner, removing only that marker. A missing or foreign marker is 404 with nothing changed. |
| MarkerRoutes.UpdateMarker | backend/app/routers/markers.py:169-213 | Checks run in the order 422, 400, 404 (missing or foreign), 404 (failed geocode), and every error happens before the save. Success exactly when all checks pass. On success only the fields present change. A new location name is re-geocoded and a present description is written even when null. |
| MarkerRoutes.UpdateMarkerImage | backend/app/routers/markers.py:216-245 | The replies are 422 for a missing file, then 400 for a bad id, then 500 for a failed upload (checked before ownership), then 404 for a missing or foreign marker. Success happens exactly when all of these pass, and it changes only that marker's image, to the uploaded URL. |
| MarkerRoutes.MissingAndForeignLookAlike | backend/app/routers/markers.py:145-240 | Delete, update and image update give the same 404 with nothing changed, whether the marker is missing or belongs to someone else. |
| VisitRoutes.RegisterVisit | backend/app/routers/visits.py:25-48 | A missing parameter gives 422. The caller's own address, as written, gives the notice. Otherwise a string that is not an address gives 500. In all three cases nothing is recorded. Every other request is registered: it appends exactly one visit, to the normalised address, with the caller as visitor, and returns it as stored. |
| VisitRoutes.GetMyVisits | backend/app/routers/visits.py:11-22 | Lists only visits to the caller's own map, each at most as often as the log holds it, newest first. All of them are listed when there are at most 50. Otherwise exactly 50 are listed, and no visit left out is newer than one listed. |
| VisitRoutes.RegisteredVisitCountsOnce | backend/app/routers/visits.py:35-43 | A registration that passes the checks adds exactly one visit, by the visitor, to what the normalised address received, and leaves every other address's visits alone. A missing parameter, the caller's own address as written, or an invalid address leaves the log as it was. |
| VisitRoutes.CaseVariantSelfVisitIsLogged | backend/app/routers/visits.py:35-43 | A user who registers their own address with the domain capitalised gets a visit to their own map logged. |
| VisitRoutes.RegisterVisitIntended | backend/app/routers/visits.py:30-36 | With the check on the stored address, the notice comes exactly for the caller's own address in any spelling. A valid address of any other user is always registered, and no logged visit is a visit to the caller. |
| VisitRoutes.IntendedLeavesOwnVisitsAlone | backend/app/routers/visits.py:32-36 | With the corrected check, registering never changes the visits the caller's own map received. |
| VisitRoutes.IntendedAgreesOnNormalAddresses | backend/app/routers/visits.py:35-43 | For an address already in normal form, the corrected check and the route answer alike. |
| MarkerCache.ErrorText | frontend/src/stores/marker.ts:33 | The error shown is the error's own message when it has one, and the action's fallback text when it does not. |
| MarkerCache.LoadMyMarkers | frontend/src/stores/marker.ts:20-38 | A non-empty list fetched under five minutes ago is kept as it is unless forced. Otherwise a reply replaces the list and stamps it, and a failure empties it and records the error's message or "Error al cargar marcadores". Loading ends false. |
| MarkerCache.FreshLoadIsReused | frontend/src/stores/marker.ts:15-31 | After a successful load of a non-empty list, every unforced load in the next five minutes keeps the state as it is. |
| MarkerCache.CreateMarker | frontend/src/stores/marker.ts:43-57 | Success appends exactly the new marker at the end. Failure keeps the list, records the error's message or "Error al crear marcador", and rethrows. Loading ends false. |
| MarkerCache.WithoutId | frontend/src/stores/marker.ts:68 | No marker with the id remains, and every other marker keeps its count; with no such id the list is unchanged. |
| MarkerCache.WithoutIdIdempotent | frontend/src/stores/marker.ts:68 | Removing an id a second time changes nothing. |
| MarkerCache.WithoutIdAppend | frontend/src/stores/marker.ts:68 | Filtering out an id commutes with appending one marker at the end. |
| MarkerCache.DeleteUndoesCreate | frontend/src/stores/marker.ts:43-75 | Deleting a marker just appended by a create, whose id no earlier marker shares, gives back the earlier list. |
| MarkerCache.DeleteMarker | frontend/src/stores/marker.ts:62-75 | A confirmed delete drops every marker with that id. A failed one keeps the list, records the error's message or "Error al eliminar marcador", and rethrows. Loading ends false. |
| MarkerCache.FindIndex | frontend/src/stores/marker.ts:86 | Gives the first position holding the id, or -1 exactly when no marker has it. |
| MarkerCache.ReplaceFirst | frontend/src/stores/marker.ts:86-89 | Only the first marker with the id is replaced and the length is kept; without the id the list is unchanged. |
| MarkerCache.UpdateMarkerImage | frontend/src/stores/marker.ts:80-96 | Success replaces only the first marker with that id and keeps the length. Failure keeps the list, records the error's message or "Error al actualizar imagen", and rethrows. Loading ends false. |
| MarkerCache.LoadUserMap | frontend/src/stores/marker.ts:101-114 | Success shows the fetched map. Failure clears it, records the error's message or "Error al cargar mapa del usuario", and rethrows. The user's own list is untouched. |
| MarkerCache.ClearCache | frontend/src/stores/marker.ts:119-123 | Empties the list, drops the visited map and resets the fetch stamp to the store's initial values, keeping the loading and error flags, so the next load always fetches. |
| MarkerCache.ClearVisitedMap | frontend/src/stores/marker.ts:128-130 | Drops only the visited map. |
| AuthService.SetToken | frontend/src/services/auth.service.ts:24-34 | After storing a token, it is the token read back and the service counts as signed in. |
| AuthService.Logout | frontend/src/services/auth.service.ts:39-53 | Whether the logout call succeeds or throws, no token remains and the service is signed out. |
| AuthService.AuthHeaders | frontend/src/services/auth.service.ts:93-104 | In the headers `getAuthHeaders` builds, the JSON content type is always there. `Authorization: Bearer <token>` is there exactly when the token is present and non-empty, and no other header is. |
| AuthService.GetCurrentUser | frontend/src/services/auth.service.ts:58-81 | Without a usable token it asks nothing and returns null. A user comes back exactly from a 2xx reply, and it is that reply's body. The token is dropped exactly on a 401, and no other outcome changes the state. |
| AuthService.EmptyTokenIsSignedInButAnonymous | frontend/src/services/auth.service.ts:24-104 | An empty token counts as signed in, yet `getAuthHeaders` adds no Authorization header for it and `getCurrentUser` never asks for the user. |
| AuthService.LogoutSilencesRequests | frontend/src/services/auth.service.ts:39-104 | After logout the headers `getAuthHeaders` builds are the JSON content type alone, and `getCurrentUser` makes no request. |
| RouteGuard.BeforeEach | frontend/src/router/index.ts:60-76 | A non-public path without a token goes to /login, and /login with a token goes to /my-map. Every other case proceeds, and a redirect never targets the requested path. |
| RouteGuard.RedirectSettles | frontend/src/router/index.ts:67-75 | The guard lets every redirect target through, so one redirect settles navigation. |
| RouteGuard.PublicMeansNeverSentToLogin | frontend/src/router/index.ts:63-69 | A path is never sent to /login, with or without a token, exactly when it is /login or /auth/callback. |

## Findings

| source | as written | input that shows it | evidently intended | confidence | as-written member | corrected member |
|---|---|---|---|---|---|---|
| backend/app/routers/visits.py:35 | The self-visit check compares the raw query parameter with the caller's address. The visit then stores the address normalised by the email field (backend/app/models/visit.py:13). | Caller `ana@mail.com` registers `ana@MAIL.com`. A visit to `ana@mail.com` by `ana@mail.com` is stored and then listed among the caller's own received visits. | The route's comment says no visit is registered when the visitor owns the map. The check belongs on the normalised address. | medium, not executed; depends on the email field lower-casing the domain | VisitRoutes.CaseVariantSelfVisitIsLogged | VisitRoutes.RegisterVisitIntended |

## Left out

- Geocoding, the image store (Cloudinary configuration and upload) and the OAuth dependencies that produce the current user are external; they appear as parameters. A missing or invalid login (401 on the backend) is not modelled: the handlers receive the authenticated user.
- Database plumbing, the FastAPI app, middleware, CORS and the serverless adapter are glue with no rules to state.
- ObjectIds are natural numbers handed out by a counter in the store; parsing a path segment into one is a parameter. JSON serialisation (`model_dump`, the string `id`) is not modelled.
- MarkerRoutes.Geocoded: the geocoder is one fixed function for every request. The real geocoding service may answer differently over time, and then a stored marker's coordinates need not match a later lookup.
- VisitRoutes.RegisterVisit: the email field's address rules and its normal form are the `normalize` parameter, not defined here. The model keeps the route as written; `RegisterVisitIntended` is the corrected variant (see "## Findings").
- VisitCrud.CreateVisit: takes addresses that are already checked. The route passes the normalised address. The map read passes the address of a registered user, and its normal form is taken to be itself.
- Coordinates are real numbers treated as opaque values. Timestamps are naturals from an abstract clock.
- The database's natural order for `find` is taken to be insertion order. The order of visits with equal timestamps after the descending sort is unspecified in the database; the model fixes one, and no contract depends on it.
- A negative `limit` is not modelled: every caller passes the default 50.
- MarkerRoutes.UpdateMarker: an explicit null `location_name` in an update is not modelled; what the geocoder does with it is unknown.
- MarkerRoutes.CreateMarker: does not promise that the stored image differs from the data URI, because the image store's URLs are opaque here.
- Every store write succeeds; a failure while recording a visit during a map read is not modelled.
- Concurrent requests and last-write-wins races are out of scope; each request is one sequential step.
- Browser side: `localStorage` persistence is modelled only as the initial token (`AuthService.Init`). `loginWithGoogle` is a page redirect and is left out. The `loading = true` state during a call cannot be observed in a one-step model.
- AuthService.GetCurrentUser: the logout triggered by a 401 is not awaited by the code; the model treats it as finished within the same step.
- The route table's own redirect of `/` to `/login` is resolved before the guard runs and is not modelled.
- The marker service's create and image-update calls build their own `Authorization: Bearer <token>` header from the raw token (frontend/src/services/marker.service.ts:75, 144). They therefore send `Bearer ` for an empty token and `Bearer null` after logout. They are not modelled, and the header contracts speak only of `getAuthHeaders`.
- The visit store of the browser, the fetch wrappers of the marker and visit services, and image compression (canvas drawing and float scaling) are left out: they hold no rules beyond what the modelled stores already show.
