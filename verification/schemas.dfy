/**
 * The request bodies of the marker routes and the field bounds the
 * framework enforces on them before a handler runs.
 */
module Schemas {
  import opened Wrappers

  const LocationNameMinLength: nat := 1
  const LocationNameMaxLength: nat := 200
  const DescriptionMaxLength: nat := 1000

  /** Body of a create request. `imageUrl` is either a URL or a base64 data URI. */
  datatype MarkerCreate = MarkerCreate(
    locationName: string,
    description: Option<string>,
    imageUrl: Option<string>
  )

  /** A field of a partial update: left out of the request, or sent with a value. */
  datatype Patch<T> = Unset | Set(value: T)

  /**
   * Body of a partial update. A description may be sent as an explicit null,
   * which is a present field whose value is `None`.
   */
  datatype MarkerUpdate = MarkerUpdate(
    locationName: Patch<string>,
    description: Patch<Option<string>>
  )

  predicate ValidLocationName(name: string) {
    LocationNameMinLength <= |name| <= LocationNameMaxLength
  }

  predicate ValidDescription(description: Option<string>) {
    description.None? || |description.value| <= DescriptionMaxLength
  }

  /** The image field carries no length or format constraint. */
  predicate ValidCreate(req: MarkerCreate) {
    ValidLocationName(req.locationName) && ValidDescription(req.description)
  }

  /** Both fields are optional; a present field obeys the create bounds. */
  predicate ValidUpdate(req: MarkerUpdate) {
    && (req.locationName.Set? ==> ValidLocationName(req.locationName.value))
    && (req.description.Set? ==> ValidDescription(req.description.value))
  }

  /**
   * The update body is checked against the same bounds as the create body:
   * an update that sets both fields to the values of a create request is
   * valid exactly when that create request is valid, whatever its image.
   */
  lemma UpdateBoundsMatchCreate(req: MarkerCreate)
    ensures ValidUpdate(MarkerUpdate(Set(req.locationName), Set(req.description))) <==> ValidCreate(req)
  {
  }

  /** Accepted location names are exactly those of 1 to 200 characters. */
  lemma LocationNameBounds(name: string)
    ensures ValidCreate(MarkerCreate(name, None, None)) <==> 1 <= |name| <= 200
    ensures !ValidCreate(MarkerCreate([], None, None))
  {
  }
}
