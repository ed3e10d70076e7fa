/** The validation of a submitted journal entry (backend/src/utils/journalValidation.js):
    an ordered chain of guards that answers with the first failing reason. */
module ValidationUtil {
  import opened Wrappers
  import Text

  /** What `JSON.parse` makes of the submitted mood. */
  datatype JsonMood =
    | Malformed   // the text is not JSON: `JSON.parse` throws a SyntaxError
    | NullValue   // the JSON `null`: reading `.emoji` of it throws a TypeError
    | MoodValue(emoji: Option<string>, moodLabel: Option<string>)
      // any other value; a property that is missing or not a string reads as None

  /** The `selectedMood` field of a request body. */
  datatype MoodField =
    | MoodMissing
      // a string (multipart fields always are), with what `JSON.parse` gives of it
    | MoodText(text: string, parsed: JsonMood)
      // a value of another type (a JSON request body can carry one), with its
      // truthiness and what `JSON.parse` gives of its string conversion
    | MoodOther(truthy: bool, parsed: JsonMood)

  /** The fields of a request body that validation reads. A field that is
      absent reads as `None`. */
  datatype Draft = Draft(
    journalEntryDate: Option<string>,
    title: Option<string>,
    contentType: Option<string>,
    productivityRating: Option<string>,
    selectedMood: MoodField)

  /** The outcome of a validator: the `{status, message}` object it returns,
      or an exception thrown out of it. */
  datatype Verdict = Passed | Failed(message: string) | Threw {
    function Status(): string
      requires !Threw?
    {
      if Passed? then "success" else "fail"
    }

    function Message(): string
      requires !Threw?
    {
      if Passed? then "Validation passed" else message
    }
  }

  const DateRequired := "Journal entry date is required"
  const TitleRequired := "Title is required"
  const ContentRequired := "Content and its type are required"
  const PastDate := "Cannot add or update journals for past dates"
  const RatingRequired := "Productivity rating is required"
  const MoodRequired := "Mood is required"

  /** JavaScript truthiness of an optional string: present and non-empty. */
  predicate Truthy(f: Option<string>) {
    f.Some? && f.value != []
  }

  /** `new Date(journalEntryDate) < currentDate`. The left operand converts to
      its time value (`entryTime`, None for an invalid date); the right one is a
      string and converts through `Number`; any comparison with NaN is false. */
  predicate BeforeToday(entryTime: Option<int>, currentDate: string) {
    var today := Text.JsToNumber(currentDate);
    entryTime.Some? && today.Some? && entryTime.value < today.value
  }

  /** The form `new Date().toISOString().split("T")[0]` has: YYYY-MM-DD. */
  predicate IsIsoDay(s: string) {
    |s| == 10 && s[4] == '-' && s[7] == '-'
    && forall i :: 0 <= i < 10 && i != 4 && i != 7 ==> Text.IsDigit(s[i])
  }

  /** An ISO day string converts to NaN, so the past-date guard never fires. */
  lemma IsoDayIsNaN(s: string, entryTime: Option<int>)
    requires IsIsoDay(s)
    ensures Text.JsToNumber(s) == None
    ensures !BeforeToday(entryTime, s)
  {
    assert !Text.IsJsWhitespace(s[0]) && !Text.IsJsWhitespace(s[9]);
    assert Text.TrimStart(s) == s;
    assert Text.TrimEnd(s) == s;
    assert !Text.AllDigits(s) by { assert !Text.IsDigit(s[4]); }
    assert !Text.AllDigits(s[1..]) by { assert s[1..][3] == '-'; }
  }

  /** The guards both copies of the validator share, in their order: the
      first failing reason, if any. */
  function LeadingChecks(d: Draft, today: string, dateValue: string -> Option<int>): Option<string> {
    if !Truthy(d.journalEntryDate) then Some(DateRequired)
    else if !Truthy(d.title) then Some(TitleRequired)
    else if !Truthy(d.contentType) then Some(ContentRequired)
    else if BeforeToday(dateValue(d.journalEntryDate.value), today) then Some(PastDate)
    else if !Truthy(d.productivityRating) then Some(RatingRequired)
    else None
  }

  /** The mood test: a parse failure or a null mood throws; an empty emoji or
      label fails. */
  function CheckMood(parsed: JsonMood): Verdict {
    match parsed
    case Malformed => Threw
    case NullValue => Threw
    case MoodValue(emoji, moodLabel) =>
      if emoji == Some("") || moodLabel == Some("") then Failed(MoodRequired) else Passed
  }

  /** `selectedMood && typeof selectedMood !== "string"`. */
  predicate InspectsMood(m: MoodField) {
    m.MoodOther? && m.truthy
  }

  /** `journalValidation` of the utility module. */
  function JournalValidation(d: Draft, today: string, dateValue: string -> Option<int>): Verdict {
    match LeadingChecks(d, today, dateValue)
    case Some(reason) => Failed(reason)
    case None => if InspectsMood(d.selectedMood) then CheckMood(d.selectedMood.parsed) else Passed
  }

  // ---------------------------------------------------------------------
  // A reference reading of the chain: a list of (guard passes, reason)
  // pairs, answered by the first that fails.

  datatype Guard = Guard(ok: bool, reason: string)

  function FirstFailure(gs: seq<Guard>): (r: Option<string>)
    ensures r.None? <==> forall i :: 0 <= i < |gs| ==> gs[i].ok
    ensures r.Some? ==> exists i :: 0 <= i < |gs| && !gs[i].ok && r.value == gs[i].reason
                          && forall j :: 0 <= j < i ==> gs[j].ok
  {
    if gs == [] then None
    else if !gs[0].ok then Some(gs[0].reason)
    else
      var r := FirstFailure(gs[1..]);
      assert forall i :: 1 <= i < |gs| ==> gs[i] == gs[1..][i - 1];
      if r.Some? then
        ghost var k :| 0 <= k < |gs[1..]| && !gs[1..][k].ok && r.value == gs[1..][k].reason
                        && forall j :: 0 <= j < k ==> gs[1..][j].ok;
        assert !gs[k + 1].ok && forall j :: 0 <= j < k + 1 ==> gs[j].ok;
        r
      else r
  }

  /** The five guards the two copies share, in source order. */
  function SharedGuards(d: Draft, today: string, dateValue: string -> Option<int>): seq<Guard> {
    [ Guard(Truthy(d.journalEntryDate), DateRequired),
      Guard(Truthy(d.title), TitleRequired),
      Guard(Truthy(d.contentType), ContentRequired),
      Guard(!(d.journalEntryDate.Some? && BeforeToday(dateValue(d.journalEntryDate.value), today)), PastDate),
      Guard(Truthy(d.productivityRating), RatingRequired) ]
  }

  /** The chain answers with the first guard, in source order, that fails. */
  lemma LeadingChecksAreFirstFailure(d: Draft, today: string, dateValue: string -> Option<int>)
    ensures LeadingChecks(d, today, dateValue) == FirstFailure(SharedGuards(d, today, dateValue))
  {
    var gs := SharedGuards(d, today, dateValue);
    assert gs[4..][1..] == [];
    var f4 := FirstFailure(gs[4..]);
    assert f4 == if gs[4].ok then None else Some(gs[4].reason);
    assert gs[3..][1..] == gs[4..];
    var f3 := FirstFailure(gs[3..]);
    assert f3 == if gs[3].ok then f4 else Some(gs[3].reason);
    assert gs[2..][1..] == gs[3..];
    var f2 := FirstFailure(gs[2..]);
    assert f2 == if gs[2].ok then f3 else Some(gs[2].reason);
    assert gs[1..][1..] == gs[2..];
    var f1 := FirstFailure(gs[1..]);
    assert f1 == if gs[1].ok then f2 else Some(gs[1].reason);
    assert FirstFailure(gs) == if gs[0].ok then f1 else Some(gs[0].reason);
  }

  /** The utility passes exactly when every guard holds and the mood, if it
      is inspected at all, parses to a value whose emoji and label are not "". */
  lemma JournalValidationPassesIff(d: Draft, today: string, dateValue: string -> Option<int>)
    ensures JournalValidation(d, today, dateValue) == Passed <==>
      (forall g :: g in SharedGuards(d, today, dateValue) ==> g.ok)
      && (InspectsMood(d.selectedMood) ==>
            d.selectedMood.parsed.MoodValue?
            && d.selectedMood.parsed.emoji != Some("") && d.selectedMood.parsed.moodLabel != Some(""))
  {
    LeadingChecksAreFirstFailure(d, today, dateValue);
    var gs := SharedGuards(d, today, dateValue);
    assert (forall g :: g in gs ==> g.ok) <==> (forall i :: 0 <= i < |gs| ==> gs[i].ok);
  }

  /** Whatever else is missing, a missing date is the reason given. */
  lemma MissingDateFirst(d: Draft, today: string, dateValue: string -> Option<int>)
    requires !Truthy(d.journalEntryDate)
    ensures JournalValidation(d, today, dateValue) == Failed(DateRequired)
  {
  }

  /** Each later guard names its own reason once the earlier ones hold,
      whatever is missing after it. */
  lemma LaterGuardReasons(d: Draft, today: string, dateValue: string -> Option<int>)
    requires IsIsoDay(today) && Truthy(d.journalEntryDate)
    ensures !Truthy(d.title) ==> JournalValidation(d, today, dateValue) == Failed(TitleRequired)
    ensures Truthy(d.title) && !Truthy(d.contentType) ==>
      JournalValidation(d, today, dateValue) == Failed(ContentRequired)
    ensures Truthy(d.title) && Truthy(d.contentType) && !Truthy(d.productivityRating) ==>
      JournalValidation(d, today, dateValue) == Failed(RatingRequired)
  {
    IsoDayIsNaN(today, dateValue(d.journalEntryDate.value));
  }

  /** The reason is never the past-date one while today is an ISO day. */
  lemma NeverPastDate(d: Draft, today: string, dateValue: string -> Option<int>)
    requires IsIsoDay(today)
    ensures JournalValidation(d, today, dateValue) != Failed(PastDate)
  {
    if d.journalEntryDate.Some? {
      IsoDayIsNaN(today, dateValue(d.journalEntryDate.value));
    }
  }

  /** Every failing reason the utility gives is one of the five it can reach. */
  lemma FailureReasons(d: Draft, today: string, dateValue: string -> Option<int>)
    requires IsIsoDay(today)
    ensures var r := JournalValidation(d, today, dateValue);
      r.Failed? ==> r.message in {DateRequired, TitleRequired, ContentRequired, RatingRequired, MoodRequired}
  {
    NeverPastDate(d, today, dateValue);
  }

  /** A mood sent as a string is never inspected: the verdict is the one for
      a draft without a mood. */
  lemma StringMoodIgnored(d: Draft, today: string, dateValue: string -> Option<int>)
    requires d.selectedMood.MoodText?
    ensures JournalValidation(d, today, dateValue)
         == JournalValidation(d.(selectedMood := MoodMissing), today, dateValue)
    ensures JournalValidation(d, today, dateValue) != Failed(MoodRequired)
  {
  }
}
