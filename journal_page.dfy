/** The legacy journal page (frontend/src/pages/Journal.jsx): the entry being
    written, the list of saved entries, and the submit guard. Requests are
    parameters: their result, or None for one that throws. */
module JournalPage {
  import opened Wrappers
  import Text

  /** A mood picked in the selector (an object, so always truthy). */
  datatype MoodChoice = MoodChoice(emoji: string, moodLabel: string)

  /** The entry being written; `date` is the calendar's value. */
  datatype CurrentEntry = CurrentEntry(content: string, mood: Option<MoodChoice>, productivityRating: int,
                                       attachments: seq<string>, date: nat)

  /** A saved entry as the server returns it. */
  datatype Entry = Entry(id: nat, content: string, mood: MoodChoice, productivityRating: int)

  const FillRequired := "Please fill in required fields (content and mood)"
  const SaveFailed := "Failed to save entry. Please try again."

  function EmptyEntry(today: nat): CurrentEntry {
    CurrentEntry("", None, 5, [], today)
  }

  /** The guard of `handleSubmit`: content that is more than whitespace and
      a mood. */
  predicate Submittable(e: CurrentEntry) {
    Text.Trim(e.content) != [] && e.mood.Some?
  }

  /** Whitespace-only content is exactly what the trim test rejects. */
  lemma SubmittableIff(e: CurrentEntry)
    ensures Submittable(e) <==> !Text.AllWhitespace(e.content) && e.mood.Some?
  {
    Text.TrimEmpty(e.content);
  }

  class Page {
    var entries: seq<Entry>
    var current: CurrentEntry
    var loading: bool
    var alerts: seq<string>
    var posted: seq<CurrentEntry>

    constructor (today: nat)
      ensures entries == [] && current == EmptyEntry(today) && loading && alerts == [] && posted == []
    {
      entries := [];
      current := EmptyEntry(today);
      loading := true;
      alerts := [];
      posted := [];
    }

    /** `fetchEntries`: replaces the list with the server's, or keeps it when
      the request throws; loading ends either way. */
    method FetchEntries(response: Option<seq<Entry>>)
      modifies this
      ensures entries == if response.Some? then response.value else old(entries)
      ensures !loading && current == old(current) && alerts == old(alerts) && posted == old(posted)
    {
      if response.Some? {
        entries := response.value;
      }
      loading := false;
    }

    method HandleContentChange(content: string)
      modifies this
      ensures current == old(current).(content := content)
      ensures entries == old(entries) && alerts == old(alerts) && posted == old(posted) && loading == old(loading)
    {
      current := current.(content := content);
    }

    method HandleMoodSelect(mood: Option<MoodChoice>)
      modifies this
      ensures current == old(current).(mood := mood)
      ensures entries == old(entries) && alerts == old(alerts) && posted == old(posted) && loading == old(loading)
    {
      current := current.(mood := mood);
    }

    method HandleProductivityChange(rating: int)
      modifies this
      ensures current == old(current).(productivityRating := rating)
      ensures entries == old(entries) && alerts == old(alerts) && posted == old(posted) && loading == old(loading)
    {
      current := current.(productivityRating := rating);
    }

    /** `handleAttachment`: the uploaded URLs go after the existing
      attachments; a failed upload changes nothing. */
    method HandleAttachment(urls: Option<seq<string>>)
      modifies this
      ensures current == if urls.Some? then old(current).(attachments := old(current).attachments + urls.value) else old(current)
      ensures entries == old(entries) && alerts == old(alerts) && posted == old(posted) && loading == old(loading)
    {
      if urls.Some? {
        current := current.(attachments := current.attachments + urls.value);
      }
    }

    /** `handleSubmit`: blocked with an alert and no request unless the guard
      holds; a saved entry is put first and the form reset; a failed request
      alerts and changes nothing else. */
    method HandleSubmit(response: Option<Entry>, today: nat)
      modifies this
      ensures !Submittable(old(current)) ==>
        entries == old(entries) && current == old(current) && posted == old(posted) && alerts == old(alerts) + [FillRequired]
      ensures Submittable(old(current)) ==> posted == old(posted) + [old(current)]
      ensures Submittable(old(current)) && response.Some? ==>
        entries == [response.value] + old(entries) && current == EmptyEntry(today) && alerts == old(alerts)
      ensures Submittable(old(current)) && response.None? ==>
        entries == old(entries) && current == old(current) && alerts == old(alerts) + [SaveFailed]
      ensures loading == old(loading)
    {
      if Text.Trim(current.content) == [] || current.mood.None? {
        alerts := alerts + [FillRequired];
        return;
      }
      posted := posted + [current];
      if response.None? {
        alerts := alerts + [SaveFailed];
        return;
      }
      entries := [response.value] + entries;
      current := EmptyEntry(today);
    }
  }
}
