/** A row of the `entries` table as the pages and the map receive it. */
module Entries {
  import opened Options

  /** One submitted entry. Text columns the pages treat as optional are `Option`s (`None`
      is `undefined` or `null`); `kind` is the `type` column ("artist", "space" or
      "artifact"). A coordinate is `None` whenever `Number.isFinite` rejects it: absent,
      `null`, `NaN` or infinite. */
  datatype Entry = Entry(
    id: int,
    title: string,
    description: Option<string>,
    kind: Option<string>,
    country: Option<string>,
    city: Option<string>,
    zipcode: Option<string>,
    address: Option<string>,
    community: Option<string>,
    link: Option<string>,
    photoUrl: Option<string>,
    lat: Option<real>,
    lon: Option<real>,
    status: Option<string>)

  /** Both coordinates are finite numbers: the entry can be drawn as a pin. */
  predicate HasCoords(e: Entry) {
    e.lat.Some? && e.lon.Some?
  }

  /** At least one coordinate is not a finite number. */
  predicate NeedsCoords(e: Entry) {
    !HasCoords(e)
  }
}
