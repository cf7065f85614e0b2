/** The result-formatting loop of `search_youtube` (src/youtube_api.py). The
    call to the YouTube Data API is done by the caller; its response is the
    input here. */
module YoutubeApi {
  import opened Wrappers

  /** One `items[k]` of a search response. Each field is `None` when a key on
      its path (`snippet.title`, `snippet.thumbnails.default.url`,
      `id.videoId`) is missing. */
  datatype Item = Item(title: Option<string>, thumbnailUrl: Option<string>, videoId: Option<string>)

  /** The response; `items` is `None` when the key is absent. */
  datatype SearchResponse = SearchResponse(items: Option<seq<Item>>)

  /** One entry of the list `search_youtube` returns. */
  datatype VideoSummary = VideoSummary(title: string, thumbnail: string, videoId: string)

  predicate Complete(item: Item) {
    item.title.Some? && item.thumbnailUrl.Some? && item.videoId.Some?
  }

  /** The loop over `items`: `None` stands for the `KeyError` an incomplete
      item raises, which `search_youtube` re-raises. */
  function FormatResults(resp: SearchResponse): (r: Option<seq<VideoSummary>>)
    ensures resp.items.None? ==> r == Some([])
    ensures r.Some? <==> forall i :: 0 <= i < |resp.items.GetOr([])| ==> Complete(resp.items.GetOr([])[i])
    ensures r.Some? ==> |r.value| == |resp.items.GetOr([])|
    ensures r.Some? ==> forall i :: 0 <= i < |r.value| ==>
      var item := resp.items.GetOr([])[i];
      r.value[i] == VideoSummary(item.title.value, item.thumbnailUrl.value, item.videoId.value)
  {
    FormatItems(resp.items.GetOr([]))
  }

  function FormatItems(items: seq<Item>): (r: Option<seq<VideoSummary>>)
    ensures r.Some? <==> forall i :: 0 <= i < |items| ==> Complete(items[i])
    ensures r.Some? ==> |r.value| == |items|
    ensures r.Some? ==> forall i :: 0 <= i < |items| ==>
      r.value[i] == VideoSummary(items[i].title.value, items[i].thumbnailUrl.value, items[i].videoId.value)
  {
    if |items| == 0 then Some([])
    else
      var item := items[0];
      if !Complete(item) then None
      else
        match FormatItems(items[1..])
        case None => None
        case Some(rest) =>
          Some([VideoSummary(item.title.value, item.thumbnailUrl.value, item.videoId.value)] + rest)
  }
}
