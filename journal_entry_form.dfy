/** The entry form's local state (frontend/src/pages/JournalEntryForm.jsx):
    the recording flags, the thumbnail size guard and the snapshot list.
    Media devices are parameters: whether the request for a stream succeeds. */
module JournalEntryForm {
  import opened Wrappers

  const ThumbnailLimit := 5000000
  const ThumbnailTooLarge := "Thumbnail size should be less than 5MB"
  const NoRecordingDevice := "Unable to access recording device"
  const NoCamera := "Unable to access camera"

  /** `snapPhotos.filter((_, i) => i !== index)`. */
  function RemoveAt(photos: seq<string>, index: int): (r: seq<string>)
    decreases |photos|
  {
    if photos == [] then []
    else RemoveAt(photos[..|photos| - 1], index) + (if |photos| - 1 != index then [photos[|photos| - 1]] else [])
  }

  /** Removing a position drops exactly that photo and keeps the others in
      order; a position outside the list changes nothing. */
  lemma {:induction false} RemoveAtSlices(photos: seq<string>, index: int)
    ensures RemoveAt(photos, index) == if 0 <= index < |photos| then photos[..index] + photos[index + 1..] else photos
    decreases |photos|
  {
    if photos != [] {
      var init := photos[..|photos| - 1];
      RemoveAtSlices(init, index);
      if 0 <= index < |photos| - 1 {
        assert init[..index] == photos[..index];
        assert init[index + 1..] + [photos[|photos| - 1]] == photos[index + 1..];
      } else if index == |photos| - 1 {
        assert init == photos[..index];
        assert photos[index + 1..] == [];
      } else {
        assert init + [photos[|photos| - 1]] == photos;
      }
    }
  }

  class Form {
    var isRecording: bool
    var isPaused: bool
    var recordingType: Option<string>
    var hasRecorder: bool
    var showPreview: bool
    var thumbnail: Option<string>
    var snapPhotos: seq<string>
    var error: string

    /** A pause only happens while recording, and recording needs a recorder. */
    predicate Valid()
      reads this
    {
      (isRecording ==> hasRecorder) && (isPaused ==> isRecording)
    }

    constructor ()
      ensures Valid()
      ensures !isRecording && !isPaused && recordingType == None && !hasRecorder && !showPreview
      ensures thumbnail == None && snapPhotos == [] && error == ""
    {
      isRecording := false;
      isPaused := false;
      recordingType := None;
      hasRecorder := false;
      showPreview := false;
      thumbnail := None;
      snapPhotos := [];
      error := "";
    }

    /** `startVideoPreview`: shows the camera, or reports it unavailable. */
    method StartVideoPreview(cameraOk: bool)
      modifies this
      ensures cameraOk ==> showPreview && error == old(error)
      ensures !cameraOk ==> showPreview == old(showPreview) && error == NoCamera
      ensures isRecording == old(isRecording) && isPaused == old(isPaused) && recordingType == old(recordingType)
      ensures hasRecorder == old(hasRecorder) && thumbnail == old(thumbnail) && snapPhotos == old(snapPhotos)
    {
      if cameraOk {
        showPreview := true;
      } else {
        error := NoCamera;
      }
    }

    /** `startRecording`: a video first opens the preview; once a stream is
      obtained the recorder starts, unpaused, with the requested type. A
      device failure reports the error and leaves the flags as they were. */
    method StartRecording(kind: string, cameraOk: bool, deviceOk: bool)
      requires Valid()
      modifies this
      ensures Valid()
      ensures deviceOk ==> isRecording && !isPaused && recordingType == Some(kind) && hasRecorder
      ensures !deviceOk ==>
        && isRecording == old(isRecording) && isPaused == old(isPaused)
        && recordingType == old(recordingType) && hasRecorder == old(hasRecorder) && error == NoRecordingDevice
      ensures showPreview == if kind == "video" && cameraOk then true else old(showPreview)
      ensures deviceOk ==> error == if kind == "video" && !cameraOk then NoCamera else old(error)
      ensures thumbnail == old(thumbnail) && snapPhotos == old(snapPhotos)
    {
      if kind == "video" {
        StartVideoPreview(cameraOk);
      }
      if !deviceOk {
        error := NoRecordingDevice;
        return;
      }
      hasRecorder := true;
      isRecording := true;
      isPaused := false;
      recordingType := Some(kind);
    }

    /** `pauseResumeRecording`: flips the pause only while recording. */
    method PauseResumeRecording()
      requires Valid()
      modifies this
      ensures Valid()
      ensures isPaused == if old(hasRecorder && isRecording) then !old(isPaused) else old(isPaused)
      ensures isRecording == old(isRecording) && recordingType == old(recordingType) && hasRecorder == old(hasRecorder)
      ensures showPreview == old(showPreview) && error == old(error)
      ensures thumbnail == old(thumbnail) && snapPhotos == old(snapPhotos)
    {
      if hasRecorder && isRecording {
        isPaused := !isPaused;
      }
    }

    /** `stopRecording`: acts only while recording, and leaves it stopped and
      unpaused with the preview closed. */
    method StopRecording()
      requires Valid()
      modifies this
      ensures Valid()
      ensures old(isRecording) ==> !isRecording && !isPaused && !showPreview
      ensures !old(isRecording) ==> isRecording == old(isRecording) && isPaused == old(isPaused) && showPreview == old(showPreview)
      ensures recordingType == old(recordingType) && hasRecorder == old(hasRecorder) && error == old(error)
      ensures thumbnail == old(thumbnail) && snapPhotos == old(snapPhotos)
    {
      if hasRecorder && isRecording {
        isRecording := false;
        isPaused := false;
        showPreview := false;
      }
    }

    /** `handleThumbnailUpload`: a file over the limit reports the error and
      keeps the current thumbnail; otherwise its object URL replaces it. */
    method HandleThumbnailUpload(file: Option<nat>, objectUrl: string)
      modifies this
      ensures file.Some? && file.value > ThumbnailLimit ==> thumbnail == old(thumbnail) && error == ThumbnailTooLarge
      ensures file.Some? && file.value <= ThumbnailLimit ==> thumbnail == Some(objectUrl) && error == old(error)
      ensures file.None? ==> thumbnail == old(thumbnail) && error == old(error)
      ensures isRecording == old(isRecording) && isPaused == old(isPaused) && hasRecorder == old(hasRecorder)
      ensures recordingType == old(recordingType) && showPreview == old(showPreview)
      ensures snapPhotos == old(snapPhotos)
    {
      if file.Some? {
        if file.value > ThumbnailLimit {
          error := ThumbnailTooLarge;
          return;
        }
        thumbnail := Some(objectUrl);
      }
    }

    /** `handleSnapPhotosUpload`: the new photos go after the existing ones,
      with no cap on their number. */
    method HandleSnapPhotosUpload(newPhotos: seq<string>)
      modifies this
      ensures snapPhotos == old(snapPhotos) + newPhotos
      ensures thumbnail == old(thumbnail) && error == old(error)
      ensures isRecording == old(isRecording) && isPaused == old(isPaused) && hasRecorder == old(hasRecorder)
      ensures recordingType == old(recordingType) && showPreview == old(showPreview)
    {
      snapPhotos := snapPhotos + newPhotos;
    }

    /** `removePhoto`. */
    method RemovePhoto(index: int)
      modifies this
      ensures snapPhotos == RemoveAt(old(snapPhotos), index)
      ensures thumbnail == old(thumbnail) && error == old(error)
      ensures isRecording == old(isRecording) && isPaused == old(isPaused) && hasRecorder == old(hasRecorder)
      ensures recordingType == old(recordingType) && showPreview == old(showPreview)
    {
      snapPhotos := RemoveAt(snapPhotos, index);
    }
  }

  /** Adding photos and then removing one of the new ones leaves the earlier
      list followed by the other new photos. */
  lemma RemoveNewPhoto(before: seq<string>, added: seq<string>, k: nat)
    requires k < |added|
    ensures RemoveAt(before + added, |before| + k) == before + (added[..k] + added[k + 1..])
  {
    var all := before + added;
    RemoveAtSlices(all, |before| + k);
    assert all[..|before| + k] == before + added[..k];
    assert all[|before| + k + 1..] == added[k + 1..];
  }
}
