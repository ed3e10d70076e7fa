/** The stored journal entry (backend/src/models/Journal.js): its fields,
    the defaults an insert starts from, and the constraints the schema
    declares. */
module JournalModel {
  import opened Wrappers

  type UserId = nat

  /** The fixed placeholder image used when an entry has no thumbnail. */
  const PlaceholderThumbnail :=
    "https://plus.unsplash.com/premium_photo-1664474619075-644dd191935f?q=80&w=2069&auto=format&fit=crop&ixlib=rb-4.0.3&ixid=M3wxMjA3fDB8MHxwaG90by1wYWdlfHx8fGVufDB8fHx8fA%3D%3D"

  const DefaultRating := 5

  /** The schema's enumeration for `content.type`. */
  const ContentKinds: seq<string> := ["text", "video", "audio"]

  datatype Content = Content(ctype: string, payload: Option<string>)

  datatype Mood = Mood(emoji: Option<string>, moodLabel: Option<string>)

  /** A journal document. The date is kept as a string. Fields without a
      schema default are optional until something sets them; the schema
      declares no timestamps. */
  datatype JournalDoc = JournalDoc(
    user: UserId,
    date: string,
    title: Option<string>,
    content: Option<Content>,
    thumbnail: string,
    snapPhotos: seq<string>,
    productivityRating: int,
    selectedMood: Option<Mood>)

  /** A required string path holds a non-empty string. */
  predicate Present(s: Option<string>) {
    s.Some? && s.value != []
  }

  /** What the schema demands of a document: every required path present,
      the content type in the enumeration and the rating in [1, 10]. */
  predicate SchemaValid(d: JournalDoc) {
    && d.date != []
    && Present(d.title)
    && d.content.Some? && d.content.value.ctype in ContentKinds && Present(d.content.value.payload)
    && 1 <= d.productivityRating <= 10
    && d.selectedMood.Some? && Present(d.selectedMood.value.emoji) && Present(d.selectedMood.value.moodLabel)
  }

  /** The document an upsert inserts before its `$set` is applied: the
      filter's user and date, and the schema's defaults. */
  function InsertBase(user: UserId, date: string): (d: JournalDoc)
    ensures d.user == user && d.date == date
    ensures d.thumbnail == PlaceholderThumbnail && d.snapPhotos == [] && d.productivityRating == DefaultRating
    ensures d.title.None? && d.content.None? && d.selectedMood.None?
  {
    JournalDoc(user, date, None, None, PlaceholderThumbnail, [], DefaultRating, None)
  }

  /** The defaults alone never make a valid document: title, content and
      mood have no default. */
  lemma InsertBaseIncomplete(user: UserId, date: string)
    ensures !SchemaValid(InsertBase(user, date))
    ensures 1 <= InsertBase(user, date).productivityRating <= 10
  {
  }
}
