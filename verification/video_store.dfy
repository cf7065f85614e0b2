/** The `videos` collection behind `Video.save` and `Video.find_by_video_id`
    (src/models/video.py), modelled as the ordered list of its documents. */
module VideoStore {
  import opened Wrappers

  /** A video id as the source handles it: a YouTube id, or `None` when a
      postback payload carried no `videoId`. */
  type VideoId = Option<string>

  /** The fields `save` writes (the `createdAt` clock reading is left out). */
  datatype Video = Video(videoId: VideoId, title: string, cloudinaryUrl: string, thumbnail: string, fileSize: int)

  /** The documents of the collection, in natural order. */
  type Collection = seq<Video>

  /** The index of the first document with this id, as `find_one` scans. */
  function IndexOf(c: Collection, id: VideoId): (r: Option<nat>)
    ensures r.Some? ==> r.value < |c| && c[r.value].videoId == id
    ensures r.Some? ==> forall j :: 0 <= j < r.value ==> c[j].videoId != id
    ensures r.None? <==> forall j :: 0 <= j < |c| ==> c[j].videoId != id
  {
    if |c| == 0 then None
    else if c[0].videoId == id then Some(0)
    else match IndexOf(c[1..], id)
      case None => None
      case Some(k) => Some(k + 1)
  }

  /** `Video.find_by_video_id`: the first document with that id, if any. */
  function FindByVideoId(c: Collection, id: VideoId): (r: Option<Video>)
    ensures r.Some? <==> exists j :: 0 <= j < |c| && c[j].videoId == id
    ensures r.Some? ==> r.value in c && r.value.videoId == id
  {
    match IndexOf(c, id)
    case Some(k) => Some(c[k])
    case None => None
  }

  /** `Video.save`: `update_one({'videoId': id}, {'$set': ...}, upsert=True)`.
      The first matching document has all its fields replaced; with no match
      a new document is appended. */
  function Save(c: Collection, v: Video): (r: Collection)
    ensures |r| == |c| || |r| == |c| + 1
    ensures v in r
    ensures forall j :: 0 <= j < |c| && c[j].videoId != v.videoId ==> c[j] in r
  {
    match IndexOf(c, v.videoId)
    case Some(k) =>
      var r := c[k := v];
      assert r[k] == v;
      assert forall j :: 0 <= j < |c| && j != k ==> r[j] == c[j];
      r
    case None => c + [v]
  }

  /** The first index holding `id` is the one `IndexOf` reports. */
  lemma IndexOfIs(c: Collection, id: VideoId, k: nat)
    requires k < |c| && c[k].videoId == id
    requires forall j :: 0 <= j < k ==> c[j].videoId != id
    ensures IndexOf(c, id) == Some(k)
  {
  }

  /** At most one document per `videoId`. */
  ghost predicate UniqueIds(c: Collection) {
    forall i, j :: 0 <= i < j < |c| ==> c[i].videoId != c[j].videoId
  }

  /** Saving keeps ids unique: the upsert is keyed by `videoId`. */
  lemma SaveKeepsIdsUnique(c: Collection, v: Video)
    requires UniqueIds(c)
    ensures UniqueIds(Save(c, v))
  {
  }

  /** Any sequence of saves starting from the empty collection. */
  function SaveAll(c: Collection, vs: seq<Video>): Collection
    decreases |vs|
  {
    if |vs| == 0 then c else SaveAll(Save(c, vs[0]), vs[1..])
  }

  /** However it was filled by saves, the collection holds one document per id. */
  lemma {:induction false} SavedCollectionsHaveUniqueIds(c: Collection, vs: seq<Video>)
    requires UniqueIds(c)
    ensures UniqueIds(SaveAll(c, vs))
    decreases |vs|
  {
    if |vs| > 0 {
      SaveKeepsIdsUnique(c, vs[0]);
      SavedCollectionsHaveUniqueIds(Save(c, vs[0]), vs[1..]);
    }
  }

  /** Round trip: a lookup right after a save returns every field written. */
  lemma FindAfterSave(c: Collection, v: Video)
    ensures FindByVideoId(Save(c, v), v.videoId) == Some(v)
  {
    match IndexOf(c, v.videoId)
    case Some(k) =>
      IndexOfIs(Save(c, v), v.videoId, k);
    case None =>
      IndexOfIs(Save(c, v), v.videoId, |c|);
  }

  /** A save touches no other id. */
  lemma FindOtherAfterSave(c: Collection, v: Video, id: VideoId)
    requires id != v.videoId
    ensures FindByVideoId(Save(c, v), id) == FindByVideoId(c, id)
  {
    var r := Save(c, v);
    match IndexOf(c, id)
    case Some(k) =>
      assert r[k] == c[k];
      IndexOfIs(r, id, k);
    case None =>
      assert forall j :: 0 <= j < |r| ==> r[j].videoId != id;
  }

  /** Last writer wins: a second save for the same id leaves the collection
      exactly as if the first had never happened, with no field merged. */
  lemma SecondSaveReplacesFirst(c: Collection, v1: Video, v2: Video)
    requires v1.videoId == v2.videoId
    ensures Save(Save(c, v1), v2) == Save(c, v2)
  {
    match IndexOf(c, v1.videoId)
    case Some(k) =>
      IndexOfIs(Save(c, v1), v2.videoId, k);
    case None =>
      IndexOfIs(Save(c, v1), v2.videoId, |c|);
  }

  /** An id that no save mentioned is not found. */
  lemma {:induction false} NeverSavedNotFound(c: Collection, vs: seq<Video>, id: VideoId)
    requires FindByVideoId(c, id).None?
    requires forall i :: 0 <= i < |vs| ==> vs[i].videoId != id
    ensures FindByVideoId(SaveAll(c, vs), id).None?
    decreases |vs|
  {
    if |vs| > 0 {
      FindOtherAfterSave(c, vs[0], id);
      NeverSavedNotFound(Save(c, vs[0]), vs[1..], id);
    }
  }

  /** The collection read as a map from id to document. */
  function AsMap(c: Collection): (m: map<VideoId, Video>)
    ensures forall id :: id in m <==> FindByVideoId(c, id).Some?
    ensures forall id :: id in m ==> Some(m[id]) == FindByVideoId(c, id)
  {
    map id | id in (set j | 0 <= j < |c| :: c[j].videoId) :: FindByVideoId(c, id).value
  }

  /** Two maps with the same keys and the same value at each key are equal. */
  lemma SameMaps(l: map<VideoId, Video>, r: map<VideoId, Video>)
    requires forall id :: id in l <==> id in r
    requires forall id :: id in l ==> l[id] == r[id]
    ensures l == r
  {
  }

  /** Seen through the map, a save is a single-key update. */
  lemma SaveIsMapUpdate(c: Collection, v: Video)
    ensures AsMap(Save(c, v)) == AsMap(c)[v.videoId := v]
  {
    var l := AsMap(Save(c, v));
    var r := AsMap(c)[v.videoId := v];
    forall id
      ensures (id in l <==> id in r) && (id in l ==> l[id] == r[id])
    {
      if id == v.videoId {
        FindAfterSave(c, v);
      } else {
        FindOtherAfterSave(c, v, id);
      }
    }
    SameMaps(l, r);
  }
}
