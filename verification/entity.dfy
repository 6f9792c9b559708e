/**
 * The `events` table row (EventEntity.kt). Kotlin `Double?` coordinates are
 * modelled as `Option<real>`; the other nullable columns as `Option<string>`.
 */
module Entity {
  import opened Wrappers

  /** Category a row gets when the constructor is not given one. */
  const DefaultCategory: string := "Autre"

  datatype EventEntity = EventEntity(
    id: int,
    title: string,
    date: string,
    location: Option<string>,
    description: Option<string>,
    imageUri: Option<string>,
    category: Option<string>,
    latitude: Option<real>,
    longitude: Option<real>,
    isParticipating: bool)

  /**
   * The Kotlin primary constructor with its default arguments: `title`, `date`
   * and `location` must be supplied; `id` 0 means "let the table assign one".
   */
  function NewEventEntity(
    title: string,
    date: string,
    location: Option<string>,
    id: int := 0,
    description: Option<string> := None,
    imageUri: Option<string> := None,
    category: Option<string> := Some(DefaultCategory),
    latitude: Option<real> := None,
    longitude: Option<real> := None,
    isParticipating: bool := false): EventEntity
  {
    EventEntity(id, title, date, location, description, imageUri, category,
                latitude, longitude, isParticipating)
  }

  /** What a row built from the three required arguments alone holds. */
  lemma ConstructorDefaults(title: string, date: string, location: Option<string>)
    ensures var e := NewEventEntity(title, date, location);
      && e.id == 0
      && e.title == title && e.date == date && e.location == location
      && e.description == None && e.imageUri == None
      && e.category == Some("Autre")
      && e.latitude == None && e.longitude == None
      && !e.isParticipating
  {
  }

  /** The row type itself lets one coordinate be present without the other. */
  lemma CoordinatesIndependentlyNullable()
    ensures exists e: EventEntity :: e.latitude.Some? && e.longitude.None?
    ensures exists e: EventEntity :: e.latitude.None? && e.longitude.Some?
  {
    var e := NewEventEntity("t", "d", None, latitude := Some(1.0));
    assert e.latitude.Some? && e.longitude.None?;
    var e' := NewEventEntity("t", "d", None, longitude := Some(1.0));
    assert e'.latitude.None? && e'.longitude.Some?;
  }
}
