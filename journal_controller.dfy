/** The journal controller (backend/src/controllers/journalController.js):
    its own copy of the validator, the add-or-update request handler over an
    entry store keyed by (user, date), and the listing of a user's entries. */
module JournalController {
  import opened Wrappers
  import Text
  import opened ValidationUtil
  import opened JournalModel
  import opened UploadMiddleware

  // ---------------------------------------------------------------------
  // The controller's validator

  /** What `JSON.parse(selectedMood)` gives: `undefined` converts to the text
      "undefined", which is not JSON. */
  function ParsedMood(m: MoodField): JsonMood {
    match m
    case MoodMissing => Malformed
    case MoodText(_, p) => p
    case MoodOther(_, p) => p
  }

  /** `journalEntryValidation`: the shared guards, then a mood that is always
      parsed and must have a non-empty emoji and label. */
  function JournalEntryValidation(d: Draft, today: string, dateValue: string -> Option<int>): (r: Verdict)
    ensures r == Passed ==>
      Truthy(d.journalEntryDate) && Truthy(d.title) && Truthy(d.contentType) && Truthy(d.productivityRating)
      && ParsedMood(d.selectedMood).MoodValue?
  {
    match LeadingChecks(d, today, dateValue)
    case Some(reason) => Failed(reason)
    case None => CheckMood(ParsedMood(d.selectedMood))
  }

  /** The two copies agree on every draft the shared guards reject. */
  lemma ValidatorsAgreeOnSharedGuards(d: Draft, today: string, dateValue: string -> Option<int>)
    requires LeadingChecks(d, today, dateValue).Some?
    ensures JournalEntryValidation(d, today, dateValue) == JournalValidation(d, today, dateValue)
            == Failed(LeadingChecks(d, today, dateValue).value)
  {
  }

  /** Where they differ: a string mood with an empty emoji or label passes
      the utility and fails the controller; a missing mood passes the utility
      and throws in the controller. */
  lemma ValidatorsDivergeOnMood(d: Draft, today: string, dateValue: string -> Option<int>)
    requires LeadingChecks(d, today, dateValue).None?
    ensures d.selectedMood.MoodText? && d.selectedMood.parsed.MoodValue?
            && (d.selectedMood.parsed.emoji == Some("") || d.selectedMood.parsed.moodLabel == Some(""))
            ==> JournalValidation(d, today, dateValue) == Passed
                && JournalEntryValidation(d, today, dateValue) == Failed(MoodRequired)
    ensures d.selectedMood.MoodMissing? ==>
      JournalValidation(d, today, dateValue) == Passed && JournalEntryValidation(d, today, dateValue) == Threw
  {
  }

  // ---------------------------------------------------------------------
  // The entry store

  datatype EntryKey = EntryKey(user: UserId, date: string)

  type Entries = map<EntryKey, JournalDoc>

  /** Each document sits under its own user and date. */
  ghost predicate Keyed(entries: Entries) {
    forall k :: k in entries ==> entries[k].user == k.user && entries[k].date == k.date
  }

  /** The fields an update's `$set` writes. `None` stands for `undefined`,
      which leaves the stored path as it was. */
  datatype Update = Update(
    title: string,
    content: Content,
    thumbnail: string,
    snapPhotos: Option<seq<string>>,
    productivityRating: int,
    selectedMood: Mood)

  function ApplyUpdate(d: JournalDoc, u: Update): (r: JournalDoc)
    ensures r.user == d.user && r.date == d.date
    ensures r.title == Some(u.title) && r.content == Some(u.content) && r.thumbnail == u.thumbnail
    ensures r.snapPhotos == if u.snapPhotos.Some? then u.snapPhotos.value else d.snapPhotos
    ensures r.productivityRating == u.productivityRating && r.selectedMood == Some(u.selectedMood)
  {
    d.(title := Some(u.title), content := Some(u.content), thumbnail := u.thumbnail,
       snapPhotos := u.snapPhotos.GetOr(d.snapPhotos), productivityRating := u.productivityRating,
       selectedMood := Some(u.selectedMood))
  }

  /** `findOneAndUpdate` with `upsert` and `setDefaultsOnInsert`: the entry
      under `key` is updated, or inserted from the schema defaults; no other
      entry changes. */
  function Upsert(entries: Entries, key: EntryKey, u: Update): (r: Entries)
    ensures r.Keys == entries.Keys + {key}
    ensures forall k :: k in entries && k != key ==> r[k] == entries[k]
    ensures r[key] == ApplyUpdate(if key in entries then entries[key] else InsertBase(key.user, key.date), u)
    ensures Keyed(entries) ==> Keyed(r)
  {
    var base := if key in entries then entries[key] else InsertBase(key.user, key.date);
    entries[key := ApplyUpdate(base, u)]
  }

  /** The message chosen from the returned document's timestamps. */
  function UpsertMessage(createdAt: Option<int>, updatedAt: Option<int>): (m: string)
    ensures m == "Journal added successfully" <==> createdAt == updatedAt
    ensures m == "Journal added successfully" || m == "Journal updated successfully"
  {
    if createdAt == updatedAt then "Journal added successfully" else "Journal updated successfully"
  }

  // ---------------------------------------------------------------------
  // addOrUpdateJournal

  /** The request body: the validated fields and the text payload. */
  datatype Body = Body(draft: Draft, contentPayload: Option<string>)

  /** One call of the handler. */
  datatype Submission = Submission(
    user: Option<UserId>,   // `req.user`; None when the token's user does not exist
    body: Body,
    files: Option<Files>,   // `req.files`; None when the request was not multipart
    storeFails: bool)       // whether the store's call rejects

  /** The response: a status and a message (and the journal on success), or
      none at all when an exception escapes the handler. */
  datatype Reply = Reply(status: nat, message: string, journal: Option<JournalDoc>) | NoReply

  const ServerError := Reply(500, "Server error", None)
  const InvalidContentType := Reply(400, "Invalid content type", None)

  datatype ContentChoice = Payload(payload: Option<string>) | UnknownType | MissingFile

  /** The content payload by content type: the body's text, the first
      uploaded media file's path, or a rejection of the type. Reading the
      first file of a field that has none throws (`MissingFile`). */
  function ContentFor(ctype: string, body: Body, files: Files): (c: ContentChoice)
    ensures c == UnknownType <==> ctype !in {"text", "audio/webm", "video/webm"}
    ensures ctype == "text" ==> c == Payload(body.contentPayload)
    ensures c.Payload? && ctype != "text" ==>
      var up := Lookup(files, "contentPayload"); up.Some? && up.value != [] && c.payload == Some(up.value[0].path)
  {
    if ctype == "text" then Payload(body.contentPayload)
    else if ctype == "audio/webm" || ctype == "video/webm" then
      var up := Lookup(files, "contentPayload");
      if up.None? || up.value == [] then MissingFile else Payload(Some(up.value[0].path))
    else UnknownType
  }

  /** What the handler decides before touching the store: an answer with
      no write, or the key and fields of the upsert. */
  datatype Decision = Stop(reply: Reply) | Write(key: EntryKey, update: Update)

  /** Everything the handler does before the store call. It reads nothing
      from the store. */
  function Decide(s: Submission, today: string, dateValue: string -> Option<int>): Decision {
    var d := s.body.draft;
    var v := JournalEntryValidation(d, today, dateValue);
    if v.Threw? then Stop(NoReply)
    else if v.Failed? then Stop(Reply(400, v.message, None))
    else if s.files.None? then Stop(ServerError)
    else
      var files := s.files.value;
      var thumbs := Lookup(files, "thumbnail");
      if thumbs.Some? && thumbs.value == [] then Stop(ServerError)
      else
        var thumbnailUrl := if thumbs.Some? then thumbs.value[0].path else PlaceholderThumbnail;
        var snaps := Lookup(files, "snapPhotos");
        var snapPhotoUrls := if snaps.Some? then FilePaths(snaps.value) else [];
        var ctype := d.contentType.value;
        match ContentFor(ctype, s.body, files)
        case UnknownType => Stop(InvalidContentType)
        case MissingFile => Stop(ServerError)
        case Payload(p) =>
          var rating := Text.JsToNumber(d.productivityRating.value);
          if s.user.None? || rating.None? || s.storeFails then Stop(ServerError)
          else
            var mood := ParsedMood(d.selectedMood);
            Write(EntryKey(s.user.value, d.journalEntryDate.value),
                  Update(d.title.value, Content(ctype, p), thumbnailUrl,
                         if snapPhotoUrls == [] then None else Some(snapPhotoUrls),
                         rating.value, Mood(mood.emoji, mood.moodLabel)))
  }

  datatype Handled = Handled(entries: Entries, reply: Reply)

  /** What one call of the handler does to the store and answers. */
  function Submit(entries: Entries, s: Submission, today: string, dateValue: string -> Option<int>): Handled {
    match Decide(s, today, dateValue)
    case Stop(reply) => Handled(entries, reply)
    case Write(key, u) =>
      var r := Upsert(entries, key, u);
      // The schema declares no timestamps: both read as undefined.
      Handled(r, Reply(200, UpsertMessage(None, None), Some(r[key])))
  }

  /** The entry store, updated in place by the handler. */
  class JournalStore {
    var entries: Entries

    constructor ()
      ensures entries == map[]
    {
      entries := map[];
    }
  }

  /** The snapshot loop: one path per uploaded file, in upload order. */
  method CollectSnapPhotoUrls(uploaded: seq<UploadedFile>) returns (snapPhotoUrls: seq<string>)
    ensures snapPhotoUrls == FilePaths(uploaded)
  {
    snapPhotoUrls := [];
    for i := 0 to |uploaded|
      invariant |snapPhotoUrls| == i
      invariant forall k :: 0 <= k < i ==> snapPhotoUrls[k] == uploaded[k].path
    {
      snapPhotoUrls := snapPhotoUrls + [uploaded[i].path];
    }
  }

  /** Everything `addOrUpdateJournal` does before the store call: the
      validation, then the thumbnail, snapshots, content and rating, each
      of which can end the request. */
  method PrepareWrite(s: Submission, today: string, dateValue: string -> Option<int>) returns (decision: Decision)
    ensures decision == Decide(s, today, dateValue)
  {
    var d := s.body.draft;
    var validationResult := JournalEntryValidation(d, today, dateValue);
    if validationResult.Threw? {
      return Stop(NoReply);
    }
    if validationResult.Failed? {
      return Stop(Reply(400, validationResult.message, None));
    }
    if s.files.None? {
      return Stop(ServerError);
    }
    var files := s.files.value;
    var thumbnailUrl := PlaceholderThumbnail;
    var thumbs := Lookup(files, "thumbnail");
    if thumbs.Some? {
      if thumbs.value == [] {
        return Stop(ServerError);
      }
      thumbnailUrl := thumbs.value[0].path;
    }
    var snapPhotoUrls: seq<string> := [];
    var snaps := Lookup(files, "snapPhotos");
    if snaps.Some? {
      snapPhotoUrls := CollectSnapPhotoUrls(snaps.value);
    }
    var ctype := d.contentType.value;
    var contentPayload: Option<string>;
    if ctype == "text" {
      contentPayload := s.body.contentPayload;
    } else if ctype == "audio/webm" || ctype == "video/webm" {
      var up := Lookup(files, "contentPayload");
      if up.None? || up.value == [] {
        return Stop(ServerError);
      }
      contentPayload := Some(up.value[0].path);
    } else {
      return Stop(InvalidContentType);
    }
    var rating := Text.JsToNumber(d.productivityRating.value);
    if s.user.None? || rating.None? || s.storeFails {
      return Stop(ServerError);
    }
    var mood := ParsedMood(d.selectedMood);
    var key := EntryKey(s.user.value, d.journalEntryDate.value);
    var u := Update(d.title.value, Content(ctype, contentPayload), thumbnailUrl,
                    if snapPhotoUrls == [] then None else Some(snapPhotoUrls),
                    rating.value, Mood(mood.emoji, mood.moodLabel));
    return Write(key, u);
  }

  /** `addOrUpdateJournal`: the checks, then the upsert and the reply
      carrying the stored document. */
  method AddOrUpdateJournal(store: JournalStore, s: Submission, today: string, dateValue: string -> Option<int>)
    returns (reply: Reply)
    modifies store
    ensures Handled(store.entries, reply) == Submit(old(store.entries), s, today, dateValue)
  {
    var decision := PrepareWrite(s, today, dateValue);
    if decision.Stop? {
      return decision.reply;
    }
    store.entries := Upsert(store.entries, decision.key, decision.update);
    reply := Reply(200, UpsertMessage(None, None), Some(store.entries[decision.key]));
  }

  // ---------------------------------------------------------------------
  // Properties of the handler

  predicate Accepted(h: Handled) {
    h.reply.Reply? && h.reply.status == 200
  }

  /** Anything but a 200 leaves the store as it was. */
  lemma RejectedWritesNothing(entries: Entries, s: Submission, today: string, dateValue: string -> Option<int>)
    ensures var h := Submit(entries, s, today, dateValue);
      Accepted(h) || h.entries == entries
    ensures var h := Submit(entries, s, today, dateValue);
      h.reply.Reply? ==> h.reply.status in {200, 400, 500}
  {
  }

  /** A failed validation answers 400 with its reason and writes nothing; a
      mood that does not parse, or parses to null, escapes the handler with
      no answer at all. */
  lemma ValidationGatesEverything(entries: Entries, s: Submission, today: string, dateValue: string -> Option<int>)
    ensures var v := JournalEntryValidation(s.body.draft, today, dateValue);
      var h := Submit(entries, s, today, dateValue);
      (v.Failed? ==> h == Handled(entries, Reply(400, v.message, None)))
      && (v.Threw? ==> h == Handled(entries, NoReply))
    ensures LeadingChecks(s.body.draft, today, dateValue).None?
      && ParsedMood(s.body.draft.selectedMood) in {Malformed, NullValue}
      ==> Submit(entries, s, today, dateValue).reply == NoReply
  {
  }

  /** A content type other than the three known ones is rejected with
      "Invalid content type" and nothing is written, provided the earlier
      steps got that far. */
  lemma UnknownContentTypeRejected(entries: Entries, s: Submission, today: string, dateValue: string -> Option<int>)
    requires JournalEntryValidation(s.body.draft, today, dateValue) == Passed
    requires s.files.Some?
    requires var t := Lookup(s.files.value, "thumbnail"); t.None? || t.value != []
    requires s.body.draft.contentType.value !in {"text", "audio/webm", "video/webm"}
    ensures Submit(entries, s, today, dateValue) == Handled(entries, InvalidContentType)
  {
  }

  /** The upsert the handler issues, field by field. */
  lemma WriteFields(s: Submission, today: string, dateValue: string -> Option<int>)
    requires Decide(s, today, dateValue).Write?
    ensures s.user.Some? && s.files.Some? && s.body.draft.journalEntryDate.Some?
    ensures var w := Decide(s, today, dateValue);
      var d := s.body.draft;
      var files := s.files.value;
      var thumbs := Lookup(files, "thumbnail");
      var snaps := Lookup(files, "snapPhotos");
      && JournalEntryValidation(d, today, dateValue) == Passed
      && w.key == EntryKey(s.user.value, d.journalEntryDate.value)
      && Some(w.update.title) == d.title
      && w.update.thumbnail == (if thumbs.Some? then thumbs.value[0].path else PlaceholderThumbnail)
      && w.update.snapPhotos == (if snaps.Some? && snaps.value != [] then Some(FilePaths(snaps.value)) else None)
      && w.update.content == Content(d.contentType.value, ContentFor(d.contentType.value, s.body, files).payload)
      && Some(w.update.productivityRating) == Text.JsToNumber(d.productivityRating.value)
      && w.update.selectedMood == Mood(ParsedMood(d.selectedMood).emoji, ParsedMood(d.selectedMood).moodLabel)
  {
    var snaps := Lookup(s.files.value, "snapPhotos");
    if snaps.Some? {
      assert FilePaths(snaps.value) == [] <==> snaps.value == [];
    }
  }

  /** An accepted submission is one whose decision is a write: the store
      becomes the upsert of that write, under (user, date) alone, and the
      answer carries the stored document. */
  lemma AcceptedStores(entries: Entries, s: Submission, today: string, dateValue: string -> Option<int>)
    ensures Accepted(Submit(entries, s, today, dateValue)) <==> Decide(s, today, dateValue).Write?
    ensures var w := Decide(s, today, dateValue);
      var h := Submit(entries, s, today, dateValue);
      w.Write? ==>
        && h.entries == Upsert(entries, w.key, w.update)
        && h.reply == Reply(200, "Journal added successfully", Some(h.entries[w.key]))
  {
  }

  /** The stored document: a new entry starts from the schema defaults, an
      existing one keeps what the update leaves undefined. With the upsert's
      fields given by WriteFields, a new entry without uploaded snapshots has
      none, and an existing one keeps its old ones. */
  lemma StoredDocument(entries: Entries, s: Submission, today: string, dateValue: string -> Option<int>)
    requires Decide(s, today, dateValue).Write?
    ensures var w := Decide(s, today, dateValue);
      var doc := Submit(entries, s, today, dateValue).entries[w.key];
      && doc.title == Some(w.update.title) && doc.content == Some(w.update.content)
      && doc.thumbnail == w.update.thumbnail
      && doc.productivityRating == w.update.productivityRating
      && doc.selectedMood == Some(w.update.selectedMood)
      && doc.snapPhotos == (if w.update.snapPhotos.Some? then w.update.snapPhotos.value
                            else if w.key in entries then entries[w.key].snapPhotos else [])
  {
    var w := Decide(s, today, dateValue);
    AcceptedStores(entries, s, today, dateValue);
    var r := Upsert(entries, w.key, w.update);
    assert Submit(entries, s, today, dateValue).entries == r;
    assert r[w.key] == ApplyUpdate(if w.key in entries then entries[w.key] else InsertBase(w.key.user, w.key.date), w.update);
  }

  /** The answer to every accepted submission says "added", even when the
      entry already existed: the documents carry no timestamps, so
      `createdAt === updatedAt` compares two undefined values. */
  lemma AlwaysReportsAdded(entries: Entries, s: Submission, today: string, dateValue: string -> Option<int>)
    requires Accepted(Submit(entries, s, today, dateValue))
    ensures Submit(entries, s, today, dateValue).reply.message == "Journal added successfully"
  {
  }

  /** The store stays keyed: each document sits under its own user and date. */
  lemma SubmitKeepsKeyed(entries: Entries, s: Submission, today: string, dateValue: string -> Option<int>)
    requires Keyed(entries)
    ensures Keyed(Submit(entries, s, today, dateValue).entries)
  {
  }

  /** The stored document can break the schema: a media entry's type is
      "audio/webm" or "video/webm", which the enumeration lacks. */
  lemma MediaEntryBreaksSchema(entries: Entries, s: Submission, today: string, dateValue: string -> Option<int>)
    requires Decide(s, today, dateValue).Write?
    requires s.body.draft.contentType in {Some("audio/webm"), Some("video/webm")}
    ensures !SchemaValid(Submit(entries, s, today, dateValue).entries[Decide(s, today, dateValue).key])
  {
    WriteFields(s, today, dateValue);
    StoredDocument(entries, s, today, dateValue);
  }

  /** A text entry meets the schema when its payload, emoji and label are
      non-empty and its rating lies in [1, 10]. */
  lemma TextEntryMeetsSchema(entries: Entries, s: Submission, today: string, dateValue: string -> Option<int>)
    requires Keyed(entries)
    requires Decide(s, today, dateValue).Write?
    requires s.body.draft.contentType == Some("text")
    requires Present(s.body.contentPayload)
    requires var m := ParsedMood(s.body.draft.selectedMood); Present(m.emoji) && Present(m.moodLabel)
    requires s.body.draft.productivityRating.Some?
    requires var r := Text.JsToNumber(s.body.draft.productivityRating.value); r.Some? && 1 <= r.value <= 10
    ensures SchemaValid(Submit(entries, s, today, dateValue).entries[Decide(s, today, dateValue).key])
  {
    WriteFields(s, today, dateValue);
    StoredDocument(entries, s, today, dateValue);
    SubmitKeepsKeyed(entries, s, today, dateValue);
    AcceptedStores(entries, s, today, dateValue);
  }

  // ---------------------------------------------------------------------
  // Many submissions

  function SubmitAll(entries: Entries, subs: seq<Submission>, today: string, dateValue: string -> Option<int>): Entries
    decreases |subs|
  {
    if subs == [] then entries
    else SubmitAll(Submit(entries, subs[0], today, dateValue).entries, subs[1..], today, dateValue)
  }

  /** The key an accepted submission writes. */
  function KeyOf(s: Submission): EntryKey
    requires s.user.Some? && s.body.draft.journalEntryDate.Some?
  {
    EntryKey(s.user.value, s.body.draft.journalEntryDate.value)
  }

  /** After any run of submissions the store holds the old keys and the key
      of each accepted submission: one entry per (user, date), never more. */
  lemma {:induction false} SubmitAllKeys(entries: Entries, subs: seq<Submission>, today: string, dateValue: string -> Option<int>)
    ensures SubmitAll(entries, subs, today, dateValue).Keys <= entries.Keys + set s | s in subs && s.user.Some? && s.body.draft.journalEntryDate.Some? :: KeyOf(s)
    ensures entries.Keys <= SubmitAll(entries, subs, today, dateValue).Keys
    decreases |subs|
  {
    if subs != [] {
      var h := Submit(entries, subs[0], today, dateValue);
      if Accepted(h) {
        AcceptedStores(entries, subs[0], today, dateValue);
      } else {
        RejectedWritesNothing(entries, subs[0], today, dateValue);
      }
      SubmitAllKeys(h.entries, subs[1..], today, dateValue);
    }
  }

  /** The last accepted submission for a (user, date) decides that entry's
      title, thumbnail and content, whatever came before it. */
  lemma {:induction false} LatestSubmissionWins(entries: Entries, subs: seq<Submission>, i: nat, today: string, dateValue: string -> Option<int>)
    requires i < |subs|
    requires Accepted(Submit(SubmitAll(entries, subs[..i], today, dateValue), subs[i], today, dateValue))
    requires forall j :: i < j < |subs| ==>
      !Accepted(Submit(SubmitAll(entries, subs[..j], today, dateValue), subs[j], today, dateValue))
      || KeyOfAccepted(subs[j]) != KeyOfAccepted(subs[i])
    ensures var key := KeyOfAccepted(subs[i]);
      var before := SubmitAll(entries, subs[..i], today, dateValue);
      var after := Submit(before, subs[i], today, dateValue).entries;
      key in SubmitAll(entries, subs, today, dateValue)
      && SubmitAll(entries, subs, today, dateValue)[key] == after[key]
    decreases |subs| - i
  {
    var key := KeyOfAccepted(subs[i]);
    var before := SubmitAll(entries, subs[..i], today, dateValue);
    AcceptedStores(before, subs[i], today, dateValue);
    SubmitAllSplit(entries, subs, i + 1, today, dateValue);
    SubmitAllSnoc(entries, subs, i, today, dateValue);
    var mid := SubmitAll(entries, subs[..i + 1], today, dateValue);
    OthersLeaveKey(mid, entries, subs, i + 1, key, today, dateValue);
  }

  function KeyOfAccepted(s: Submission): EntryKey {
    if s.user.Some? && s.body.draft.journalEntryDate.Some? then KeyOf(s) else EntryKey(0, "")
  }

  /** One more submission extends the run by one step. */
  lemma SubmitAllSnoc(entries: Entries, subs: seq<Submission>, i: nat, today: string, dateValue: string -> Option<int>)
    requires i < |subs|
    ensures SubmitAll(entries, subs[..i + 1], today, dateValue)
         == Submit(SubmitAll(entries, subs[..i], today, dateValue), subs[i], today, dateValue).entries
  {
    SubmitAllSplit(entries, subs[..i + 1], i, today, dateValue);
    assert subs[..i + 1][..i] == subs[..i];
    assert subs[..i + 1][i..] == [subs[i]];
  }

  /** A submission that is rejected, or accepted for another key, keeps the
      entry under `key`. */
  lemma StepKeepsKey(mid: Entries, s: Submission, key: EntryKey, today: string, dateValue: string -> Option<int>)
    requires key in mid
    requires !Accepted(Submit(mid, s, today, dateValue)) || KeyOfAccepted(s) != key
    ensures key in Submit(mid, s, today, dateValue).entries
    ensures Submit(mid, s, today, dateValue).entries[key] == mid[key]
  {
    if Accepted(Submit(mid, s, today, dateValue)) {
      AcceptedStores(mid, s, today, dateValue);
    } else {
      RejectedWritesNothing(mid, s, today, dateValue);
    }
  }

  lemma {:induction false} SubmitAllSplit(entries: Entries, subs: seq<Submission>, i: nat, today: string, dateValue: string -> Option<int>)
    requires i <= |subs|
    ensures SubmitAll(entries, subs, today, dateValue)
         == SubmitAll(SubmitAll(entries, subs[..i], today, dateValue), subs[i..], today, dateValue)
    decreases i
  {
    if i > 0 {
      assert subs[..i][1..] == subs[1..][..i - 1];
      assert subs[i..] == subs[1..][i - 1..];
      SubmitAllSplit(Submit(entries, subs[0], today, dateValue).entries, subs[1..], i - 1, today, dateValue);
    } else {
      assert subs[..0] == [] && subs[0..] == subs;
    }
  }

  /** Submissions that are rejected, or accepted for other keys, leave the
      entry under `key` as it is. */
  lemma {:induction false} OthersLeaveKey(mid: Entries, entries: Entries, subs: seq<Submission>, from: nat, key: EntryKey,
                                          today: string, dateValue: string -> Option<int>)
    requires from <= |subs|
    requires mid == SubmitAll(entries, subs[..from], today, dateValue)
    requires key in mid
    requires forall j :: from <= j < |subs| ==>
      !Accepted(Submit(SubmitAll(entries, subs[..j], today, dateValue), subs[j], today, dateValue))
      || KeyOfAccepted(subs[j]) != key
    ensures key in SubmitAll(mid, subs[from..], today, dateValue)
    ensures SubmitAll(mid, subs[from..], today, dateValue)[key] == mid[key]
    decreases |subs| - from
  {
    if from < |subs| {
      var next := Submit(mid, subs[from], today, dateValue).entries;
      StepKeepsKey(mid, subs[from], key, today, dateValue);
      SubmitAllSnoc(entries, subs, from, today, dateValue);
      OthersLeaveKey(next, entries, subs, from + 1, key, today, dateValue);
      assert subs[from..][1..] == subs[from + 1..];
    }
  }

  // ---------------------------------------------------------------------
  // getAllJournal

  datatype Listing = Listed(journals: set<JournalDoc>) | ListingFailed

  /** `getAllJournal`: the caller's entries, or "Server error" when there is
      no user or the query fails. */
  function GetAllJournal(entries: Entries, user: Option<UserId>, storeFails: bool): (r: Listing)
    ensures r.Listed? <==> user.Some? && !storeFails
    ensures r.Listed? ==> forall j :: j in r.journals <==> j in entries.Values && j.user == user.value
  {
    if user.None? || storeFails then ListingFailed
    else Listed(set k | k in entries && entries[k].user == user.value :: entries[k])
  }
}
