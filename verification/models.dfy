/**
 * The documents the backend persists: markers placed on a personal map and
 * the log of visits to other users' maps, plus the authenticated user the
 * routes act for.
 */
module Models {
  import opened Wrappers

  /** An e-mail address; it is the identity key of a user everywhere. */
  type Email = string

  /** A store-assigned document identifier (the database's ObjectId, abstracted). */
  type Id = nat

  /** An instant read from the abstract clock. */
  type Time = nat

  /** What the geocoder resolves a place name to. The values are opaque here. */
  datatype Coordinates = Coordinates(latitude: real, longitude: real)

  /** A point of interest on its owner's map. */
  datatype Marker = Marker(
    id: Id,
    userEmail: Email,
    locationName: string,
    latitude: real,
    longitude: real,
    imageUrl: Option<string>,
    description: Option<string>,
    createdAt: Time
  )

  /** A log entry: `visitorEmail` looked at the map of `visitedUserEmail`. */
  datatype Visit = Visit(
    id: Id,
    visitedUserEmail: Email,
    visitorEmail: Email,
    visitorOauthId: string,
    visitedAt: Time
  )

  /** The error replies of the routes: 400, 404, 422 and 500. */
  datatype Status = BadRequest | NotFound | UnprocessableEntity | InternalServerError

  /** A registered user, as far as the marker and visit routes look at one. */
  datatype User = User(email: Email, name: string, oauthId: string)
}
