/** Removal of an entry's remote assets (backend/src/utils/deleteCloudinaryResource.js):
    each stored URL is turned into the asset's public id, and one destroy
    call per asset is issued, in order, with failures swallowed. */
module CloudinaryCleanup {
  import opened Wrappers
  import Text
  import opened JournalModel

  datatype ResourceType = Image | Video

  /** One `uploader.destroy(publicId, {resource_type})` call. */
  datatype DestroyCall = DestroyCall(publicId: string, resourceType: ResourceType)

  const ThumbnailsFolder := "memories-journal/thumbnails/"
  const SnapshotsFolder := "memories-journal/snapshots/"
  const ContentsFolder := "memories-journal/contents/"

  /** The public id of the asset behind `url`: the folder followed by the
      URL's last '/'-segment cut at its first '.'. */
  function PublicId(folder: string, url: string): string {
    folder + Text.BeforeFirst(Text.AfterLast(url, '/'), '.')
  }

  /** The id is the folder and a name without '/' or '.' that begins the
      URL's last segment. */
  lemma PublicIdShape(folder: string, url: string)
    ensures var id := PublicId(folder, url);
      var name := id[|folder|..];
      Text.StartsWith(id, folder) && '/' !in name && '.' !in name
      && Text.StartsWith(Text.AfterLast(url, '/'), name)
  {
    var seg := Text.AfterLast(url, '/');
    Text.AfterLastIsSuffix(url, '/');
    Text.BeforeFirstIsPrefix(seg, '.');
    var name := Text.BeforeFirst(seg, '.');
    assert PublicId(folder, url)[|folder|..] == name;
    assert forall c :: c in name ==> c in seg;
  }

  /** For an asset URL `base/name.ext` (or `base/name`), the id is the folder
      and `name`: the inverse of how the store names what it serves. */
  lemma PublicIdOfAssetUrl(folder: string, base: string, name: string, ext: string)
    requires '/' !in name && '.' !in name && '/' !in ext
    ensures PublicId(folder, base + "/" + name + "." + ext) == folder + name
    ensures PublicId(folder, base + "/" + name) == folder + name
  {
    var seg := name + "." + ext;
    assert base + "/" + name + "." + ext == base + ['/'] + seg;
    Text.SplitAround(base, seg, '/');
    Text.SplitWithoutSeparator(seg, '/');
    assert Text.AfterLast(base + "/" + name + "." + ext, '/') == seg;
    Text.SplitAround(name, ext, '.');
    Text.SplitWithoutSeparator(name, '.');
    assert Text.BeforeFirst(seg, '.') == name;
    assert base + "/" + name == base + ['/'] + name;
    Text.SplitAround(base, name, '/');
    Text.SplitWithoutSeparator(name, '/');
    assert Text.AfterLast(base + "/" + name, '/') == name;
  }

  /** The destroy calls for an entry, and whether the walk throws on the way
      (an entry without content throws when its type is read). */
  datatype Plan = Plan(calls: seq<DestroyCall>, throws: bool)

  predicate DestroysThumbnail(j: JournalDoc) {
    j.thumbnail != [] && j.thumbnail != PlaceholderThumbnail
  }

  predicate DestroysContent(c: Content) {
    c.ctype != "text" && c.payload.Some? && c.payload.value != []
  }

  function SnapshotCalls(urls: seq<string>): (r: seq<DestroyCall>)
    ensures |r| == |urls|
    ensures forall i :: 0 <= i < |urls| ==> r[i] == DestroyCall(PublicId(SnapshotsFolder, urls[i]), Image)
  {
    seq(|urls|, i requires 0 <= i < |urls| => DestroyCall(PublicId(SnapshotsFolder, urls[i]), Image))
  }

  function ThumbnailCalls(j: JournalDoc): seq<DestroyCall> {
    if DestroysThumbnail(j) then [DestroyCall(PublicId(ThumbnailsFolder, j.thumbnail), Image)] else []
  }

  function ContentCalls(c: Content): seq<DestroyCall> {
    if DestroysContent(c) then [DestroyCall(PublicId(ContentsFolder, c.payload.value), Video)] else []
  }

  /** `cleanupCloudinaryJournalData`: the thumbnail unless it is empty or
      the placeholder, then every snapshot in stored order, then the media
      payload of a non-text entry, as a video. */
  function CleanupPlan(j: JournalDoc): Plan {
    Plan(ThumbnailCalls(j) + SnapshotCalls(j.snapPhotos) + TailCalls(j), j.content.None?)
  }

  /** The content call, when the walk gets that far. */
  function TailCalls(j: JournalDoc): seq<DestroyCall> {
    if j.content.None? then [] else ContentCalls(j.content.value)
  }

  /** The number of calls one per destroyed asset, and the walk throws exactly
      when the entry has no content. */
  lemma CleanupPlanCount(j: JournalDoc)
    ensures var c := if j.content.Some? && DestroysContent(j.content.value) then 1 else 0;
      |CleanupPlan(j).calls| == (if DestroysThumbnail(j) then 1 else 0) + |j.snapPhotos| + c
    ensures CleanupPlan(j).throws <==> j.content.None?
  {
  }

  /** The order of the calls: thumbnail first, then one per snapshot in
      stored order, then the content. */
  lemma CleanupPlanOrder(j: JournalDoc)
    ensures var p, t := CleanupPlan(j), |ThumbnailCalls(j)|;
      && (DestroysThumbnail(j) ==> p.calls[0] == DestroyCall(PublicId(ThumbnailsFolder, j.thumbnail), Image))
      && (forall i :: 0 <= i < |j.snapPhotos| ==>
            p.calls[t + i] == DestroyCall(PublicId(SnapshotsFolder, j.snapPhotos[i]), Image))
      && (j.content.Some? && DestroysContent(j.content.value) ==>
            p.calls[|p.calls| - 1] == DestroyCall(PublicId(ContentsFolder, j.content.value.payload.value), Video))
  {
    if DestroysThumbnail(j) {
      ThumbnailCallFirst(j);
    }
    SnapshotCallsInOrder(j);
  }

  /** The thumbnail, when destroyed, is the first call. */
  lemma ThumbnailCallFirst(j: JournalDoc)
    requires DestroysThumbnail(j)
    ensures CleanupPlan(j).calls[0] == DestroyCall(PublicId(ThumbnailsFolder, j.thumbnail), Image)
  {
    ThreePartIndex(ThumbnailCalls(j), SnapshotCalls(j.snapPhotos), TailCalls(j), 0);
  }

  /** The snapshots follow the thumbnail call, in their stored order. */
  lemma SnapshotCallsInOrder(j: JournalDoc)
    ensures var p, t := CleanupPlan(j), |ThumbnailCalls(j)|;
      forall i :: 0 <= i < |j.snapPhotos| ==>
        p.calls[t + i] == DestroyCall(PublicId(SnapshotsFolder, j.snapPhotos[i]), Image)
  {
    var thumb, snaps, tail := ThumbnailCalls(j), SnapshotCalls(j.snapPhotos), TailCalls(j);
    forall i | 0 <= i < |j.snapPhotos|
      ensures CleanupPlan(j).calls[|thumb| + i] == DestroyCall(PublicId(SnapshotsFolder, j.snapPhotos[i]), Image)
    {
      ThreePartIndex(thumb, snaps, tail, |thumb| + i);
    }
  }

  /** Where index k of a three-part sequence comes from. */
  lemma ThreePartIndex(a: seq<DestroyCall>, b: seq<DestroyCall>, c: seq<DestroyCall>, k: nat)
    requires k < |a| + |b| + |c|
    ensures k < |a| ==> (a + b + c)[k] == a[k]
    ensures |a| <= k < |a| + |b| ==> (a + b + c)[k] == b[k - |a|]
    ensures |a| + |b| <= k ==> (a + b + c)[k] == c[k - |a| - |b|]
  {
  }

  /** Only the content payload is destroyed as a video; every other asset as
      an image. */
  lemma OnlyContentIsVideo(j: JournalDoc)
    ensures var p := CleanupPlan(j);
      forall i :: 0 <= i < |p.calls| ==>
        (p.calls[i].resourceType == Video <==> j.content.Some? && DestroysContent(j.content.value) && i == |p.calls| - 1)
  {
    var thumb, snaps, tail := ThumbnailCalls(j), SnapshotCalls(j.snapPhotos), TailCalls(j);
    forall i | 0 <= i < |CleanupPlan(j).calls|
      ensures CleanupPlan(j).calls[i].resourceType == Video
              <==> j.content.Some? && DestroysContent(j.content.value) && i == |CleanupPlan(j).calls| - 1
    {
      ThreePartIndex(thumb, snaps, tail, i);
    }
  }

  /** An id under the snapshots or contents folder is not under the
      thumbnails folder: the three differ right after "memories-journal/". */
  lemma OtherFoldersAreNotThumbnails(folder: string, url: string)
    requires folder == SnapshotsFolder || folder == ContentsFolder
    ensures !Text.StartsWith(PublicId(folder, url), ThumbnailsFolder)
  {
    assert PublicId(folder, url)[17] == folder[17];
  }

  /** The placeholder thumbnail is never destroyed: no call goes to the
      thumbnails folder unless the thumbnail is a real one. */
  lemma PlaceholderNeverDestroyed(j: JournalDoc)
    ensures (exists i :: 0 <= i < |CleanupPlan(j).calls| && Text.StartsWith(CleanupPlan(j).calls[i].publicId, ThumbnailsFolder))
            <==> DestroysThumbnail(j)
  {
    var p := CleanupPlan(j);
    var thumb, snaps, tail := ThumbnailCalls(j), SnapshotCalls(j.snapPhotos), TailCalls(j);
    forall i | |thumb| <= i < |p.calls|
      ensures !Text.StartsWith(p.calls[i].publicId, ThumbnailsFolder)
    {
      ThreePartIndex(thumb, snaps, tail, i);
      if i < |thumb| + |snaps| {
        OtherFoldersAreNotThumbnails(SnapshotsFolder, j.snapPhotos[i - |thumb|]);
      } else {
        OtherFoldersAreNotThumbnails(ContentsFolder, j.content.value.payload.value);
      }
    }
    if DestroysThumbnail(j) {
      ThreePartIndex(thumb, snaps, tail, 0);
      assert Text.StartsWith(p.calls[0].publicId, ThumbnailsFolder);
    }
  }

  /** The remote asset store: the assets it holds, the destroy calls it has
      received, and the calls that will fail (a network or service error). */
  class AssetStore {
    var assets: set<DestroyCall>
    var received: seq<DestroyCall>
    const failing: set<DestroyCall>

    constructor (assets: set<DestroyCall>, failing: set<DestroyCall>)
      ensures this.assets == assets && this.failing == failing && received == []
    {
      this.assets := assets;
      this.failing := failing;
      received := [];
    }
  }

  /** The assets a run of calls removes: those whose call does not fail. */
  function Removed(calls: seq<DestroyCall>, failing: set<DestroyCall>): set<DestroyCall> {
    set i | 0 <= i < |calls| && calls[i] !in failing :: calls[i]
  }

  /** The assets left after one destroy call. */
  function AfterDestroy(assets: set<DestroyCall>, call: DestroyCall, failing: set<DestroyCall>): set<DestroyCall> {
    if call in failing then assets else assets - {call}
  }

  /** The assets left after a run of destroy calls, one after the other. */
  function AfterAll(assets: set<DestroyCall>, calls: seq<DestroyCall>, failing: set<DestroyCall>): set<DestroyCall>
    decreases |calls|
  {
    if calls == [] then assets
    else AfterDestroy(AfterAll(assets, calls[..|calls| - 1], failing), calls[|calls| - 1], failing)
  }

  /** The calls in a run are independent: what is left is what was there
      minus every asset whose call did not fail, whatever the order. */
  lemma {:induction false} AfterAllRemoves(assets: set<DestroyCall>, calls: seq<DestroyCall>, failing: set<DestroyCall>)
    ensures AfterAll(assets, calls, failing) == assets - Removed(calls, failing)
    decreases |calls|
  {
    if calls != [] {
      var init := calls[..|calls| - 1];
      AfterAllRemoves(assets, init, failing);
      assert calls == init + [calls[|calls| - 1]];
      var r := calls;
      assert forall i :: 0 <= i < |init| ==> r[i] == init[i];
    }
  }

  lemma {:induction false} AfterAllConcat(assets: set<DestroyCall>, a: seq<DestroyCall>, b: seq<DestroyCall>, failing: set<DestroyCall>)
    ensures AfterAll(assets, a + b, failing) == AfterAll(AfterAll(assets, a, failing), b, failing)
    decreases |b|
  {
    if b == [] {
      assert a + b == a;
    } else {
      var binit := b[..|b| - 1];
      AfterAllConcat(assets, a, binit, failing);
      assert (a + b)[..|a + b| - 1] == a + binit;
    }
  }

  /** `deleteCloudinaryResource`: one destroy call; a failure is caught and
      logged, never rethrown. */
  method DeleteCloudinaryResource(store: AssetStore, publicId: string, resourceType: ResourceType := Image)
    modifies store
    ensures store.received == old(store.received) + [DestroyCall(publicId, resourceType)]
    ensures store.assets == AfterDestroy(old(store.assets), DestroyCall(publicId, resourceType), store.failing)
  {
    var call := DestroyCall(publicId, resourceType);
    store.received := store.received + [call];
    if call !in store.failing {
      store.assets := store.assets - {call};
    }
  }

  /** The snapshot loop of `cleanupCloudinaryJournalData`: one image destroy
      per stored snapshot URL, in order. */
  method DestroySnapshots(store: AssetStore, snapPhotos: seq<string>)
    modifies store
    ensures store.received == old(store.received) + SnapshotCalls(snapPhotos)
    ensures store.assets == AfterAll(old(store.assets), SnapshotCalls(snapPhotos), store.failing)
  {
    for i := 0 to |snapPhotos|
      invariant store.received == old(store.received) + SnapshotCalls(snapPhotos[..i])
      invariant store.assets == AfterAll(old(store.assets), SnapshotCalls(snapPhotos[..i]), store.failing)
    {
      var publicId := PublicId(SnapshotsFolder, snapPhotos[i]);
      DeleteCloudinaryResource(store, publicId);
      var done := SnapshotCalls(snapPhotos[..i + 1]);
      assert done[..|done| - 1] == SnapshotCalls(snapPhotos[..i]);
    }
    assert snapPhotos[..|snapPhotos|] == snapPhotos;
  }

  lemma CallsAssociate(a: seq<DestroyCall>, b: seq<DestroyCall>, c: seq<DestroyCall>)
    ensures a + b + c == a + (b + c)
  {
  }

  /** The thumbnail step of `cleanupCloudinaryJournalData`. */
  method DestroyThumbnail(store: AssetStore, existing: JournalDoc)
    modifies store
    ensures store.received == old(store.received) + ThumbnailCalls(existing)
    ensures store.assets == AfterAll(old(store.assets), ThumbnailCalls(existing), store.failing)
  {
    if DestroysThumbnail(existing) {
      var publicId := PublicId(ThumbnailsFolder, existing.thumbnail);
      DeleteCloudinaryResource(store, publicId);
      assert ThumbnailCalls(existing)[..0] == [];
    } else {
      assert old(store.received) + [] == old(store.received);
    }
  }

  /** The content step: a media payload is destroyed as a video. */
  method DestroyContent(store: AssetStore, content: Content)
    modifies store
    ensures store.received == old(store.received) + ContentCalls(content)
    ensures store.assets == AfterAll(old(store.assets), ContentCalls(content), store.failing)
  {
    if DestroysContent(content) {
      var publicId := PublicId(ContentsFolder, content.payload.value);
      DeleteCloudinaryResource(store, publicId, Video);
      assert ContentCalls(content)[..0] == [];
    } else {
      assert old(store.received) + [] == old(store.received);
    }
  }

  /** The thumbnail and snapshot steps, which run for every entry. */
  method DestroyImages(store: AssetStore, existing: JournalDoc)
    modifies store
    ensures store.received == old(store.received) + (ThumbnailCalls(existing) + SnapshotCalls(existing.snapPhotos))
    ensures store.assets == AfterAll(old(store.assets), ThumbnailCalls(existing) + SnapshotCalls(existing.snapPhotos), store.failing)
  {
    ghost var thumb, snaps := ThumbnailCalls(existing), SnapshotCalls(existing.snapPhotos);
    ghost var r0, a0 := store.received, store.assets;
    DestroyThumbnail(store, existing);
    if |existing.snapPhotos| > 0 {
      DestroySnapshots(store, existing.snapPhotos);
    } else {
      assert snaps == [];
    }
    CallsAssociate(r0, thumb, snaps);
    AfterAllConcat(a0, thumb, snaps, store.failing);
  }

  /** `cleanupCloudinaryJournalData`: issues the planned calls in order, each
      whatever became of the ones before. Reading the type of a missing
      content throws after the snapshots. */
  method CleanupCloudinaryJournalData(store: AssetStore, existing: JournalDoc) returns (threw: bool)
    modifies store
    ensures store.received == old(store.received) + CleanupPlan(existing).calls
    ensures store.assets == AfterAll(old(store.assets), CleanupPlan(existing).calls, store.failing)
    ensures threw == CleanupPlan(existing).throws
  {
    ghost var front := ThumbnailCalls(existing) + SnapshotCalls(existing.snapPhotos);
    ghost var tail := TailCalls(existing);
    assert CleanupPlan(existing).calls == front + tail;
    DestroyImages(store, existing);
    if existing.content.None? {
      assert front + tail == front;
      return true;
    }
    ghost var r0 := old(store.received);
    DestroyContent(store, existing.content.value);
    CallsAssociate(r0, front, tail);
    AfterAllConcat(old(store.assets), front, tail, store.failing);
    return false;
  }
}
